/** Where planning again differs: an element of a set block that does not refit leaves its slot to another element,
    which takes over what it computed. */
module ProposedStateTakeover {
  import opened ProposedState
  import opened ProposedStateLaws
  import opened ProposedStateLoops
  import opened ProposedStateReplan
  import opened ProposedStateWalk

  /** A computed leaf that the configuration sets. */
  ghost predicate Sets(s: Schema, d: string, c: Value)
    requires ConformsObject(s, c)
  {
    d in s.attrs && s.attrs[d].Leaf? && s.attrs[d].computed && !c.fields[d].Null? && !c.fields[d].SetV?
  }

  /** The element that is configured to what was made of the other one, without the leaf. */
  function Companion(s: Schema, d: string, c: Value): Value
    requires Supported(s) && ConformsObject(s, c)
  {
    var out := ProposedElement(BlockElement, s, Null, c);
    Obj(out.fields[d := Null])
  }

  lemma LeafErased(s: Schema, d: string, v: Value)
    requires Supported(s) && ConformsObject(s, v) && d in s.attrs && s.attrs[d].Leaf?
    ensures ConformsObject(s, Obj(v.fields[d := Null]))
  {
    hide ConformsBlock;
    var w := Obj(v.fields[d := Null]);
    assert w.fields.Keys == v.fields.Keys;
    assert forall n <- s.attrs :: n == d || w.fields[n] == v.fields[n];
    assert forall n <- s.blocks :: w.fields[n] == v.fields[n];
  }

  lemma CompanionConforms(s: Schema, d: string, c: Value)
    requires Supported(s) && ConformsObject(s, c) && Sets(s, d, c)
    ensures var out, e := ProposedElement(BlockElement, s, Null, c), Companion(s, d, c);
      && ConformsObject(s, e) && out.fields[d] == c.fields[d] && e != out && e.fields[d] == Null
      && (forall n <- s.attrs | n != d :: e.fields[n] == out.fields[n])
      && (forall n <- s.blocks :: e.fields[n] == out.fields[n])
  {
    hide ProposedElement, ConformsAttribute, ConformsBlock;
    var out := ProposedElement(BlockElement, s, Null, c);
    ElementFields(BlockElement, s, Null, c);
    LeafProposed(s.attrs[d], PriorField(PriorObject(BlockElement, s, Null), d), c.fields[d]);
    LeafErased(s, d, out);
  }

  /** The companion is planned as it stands. */
  lemma CompanionIsExact(s: Schema, d: string, c: Value)
    requires Supported(s) && ConformsObject(s, c) && Sets(s, d, c)
    ensures ConformsObject(s, Companion(s, d, c))
    ensures ProposedElement(BlockElement, s, Null, Companion(s, d, c)) == Companion(s, d, c)
  {
    hide ProposedElement, Companion, ConformsAttribute, ConformsBlock;
    CompanionConforms(s, d, c);
    FilledIsExact(BlockElement, s, Null, c);
    assert Exact(s, Companion(s, d, c));
    ObjectOverNothing(BlockElement, s, Null, Companion(s, d, c));
  }

  /** Of the two, what was made of the element fits the companion, but the companion does not fit the element. */
  lemma CompanionFits(s: Schema, d: string, c: Value)
    requires Supported(s) && ConformsObject(s, c) && Sets(s, d, c)
    ensures var out, e := ProposedElement(BlockElement, s, Null, c), Companion(s, d, c);
      ConformsObject(s, e) && FitsObject(s, out, e) && !FitsObject(s, e, c)
  {
    hide ProposedElement, Companion, ConformsAttribute, ConformsBlock, FitsNesting;
    CompanionConforms(s, d, c);
    var out, e := ProposedElement(BlockElement, s, Null, c), Companion(s, d, c);
    FieldByField(s, out, e);
    FieldByField(s, e, c);
    assert !FitsAttribute(s.attrs[d], e.fields[d], c.fields[d]);
  }

  lemma CompanionTakesOver(s: Schema, d: string, c: Value)
    requires Supported(s) && ConformsObject(s, c) && Sets(s, d, c)
    ensures var out, e := ProposedElement(BlockElement, s, Null, c), Companion(s, d, c);
      ConformsObject(s, e) && ProposedElement(BlockElement, s, out, e) == out
  {
    hide ProposedElement, Companion, ConformsAttribute, ConformsBlock, ProposedAttribute, ProposedBlock;
    CompanionConforms(s, d, c);
    var out, e := ProposedElement(BlockElement, s, Null, c), Companion(s, d, c);
    ElementFields(BlockElement, s, out, e);
    LeafProposed(s.attrs[d], out.fields[d], e.fields[d]);
    forall n <- s.attrs | n != d {
      SelfAttribute(s.attrs[n], out.fields[n]);
    }
    forall n <- s.blocks {
      SelfBlock(s.blocks[n], out.fields[n]);
    }
    FieldByField(s, ProposedElement(BlockElement, s, out, e), out);
  }

  /** Two slots, of which the first or none fits the first element. */
  lemma TwoSlots(s: Schema, x: Value, y: Value, c: Value, e: Value)
    requires Supported(s) && ConformsObject(s, x) && ConformsObject(s, y) && ConformsObject(s, c) &&
      ConformsObject(s, e)
    requires !FitsObject(s, y, c) && FitsObject(s, x, e) && FitsObject(s, y, e)
    ensures SetElements(BlockElement, s, [x, y], [c, e], Unused(2)) ==
      if FitsObject(s, x, c) then [ProposedElement(BlockElement, s, x, c), ProposedElement(BlockElement, s, y, e)]
      else [ProposedElement(BlockElement, s, Null, c), ProposedElement(BlockElement, s, x, e)]
  {
    hide ProposedElement, FitsObject, ConformsObject, Supported;
    assert [c, e][1..] == [e] && [e][1..] == [];
    if FitsObject(s, x, c) {
      assert FirstMatch(BlockElement, s, [x, y], c, Unused(2), 0) == 0;
      assert FirstMatch(BlockElement, s, [x, y], e, [true, false], 0) == 1;
      assert Unused(2)[0 := true] == [true, false];
    } else {
      assert FirstMatch(BlockElement, s, [x, y], c, Unused(2), 0) == 2;
      assert FirstMatch(BlockElement, s, [x, y], e, Unused(2), 0) == 0;
    }
  }

  /** Beside its companion, an element is planned stably exactly if it refits; otherwise the companion takes over
      the leaf, and the two become one. */
  lemma StableIffRefits(s: Schema, d: string, c: Value)
    requires Supported(s) && ConformsObject(s, c) && Sets(s, d, c)
    ensures ConformsObject(s, Companion(s, d, c))
    ensures var out, e := ProposedElement(BlockElement, s, Null, c), Companion(s, d, c);
      var planned := SetElements(BlockElement, s, [], [c, e], Unused(0));
      var again := SetElements(BlockElement, s, planned, [c, e], Unused(2));
      && planned == [out, e] && out != e
      && again == if Refits(s, c) then planned else [out, out]
  {
    hide ProposedElement, Companion, FitsObject, ConformsObject, Supported, Refits, SetElements, Sets;
    var out, e := ProposedElement(BlockElement, s, Null, c), Companion(s, d, c);
    CompanionConforms(s, d, c);
    CompanionIsExact(s, d, c);
    CompanionFits(s, d, c);
    CompanionTakesOver(s, d, c);
    NoSlots(s, c, e);
    ItselfFits(s, e);
    ObjectOverNothing(BlockElement, s, Null, c);
    TwoSlots(s, out, e, c, e);
    if Refits(s, c) {
      FilledStays(s, c);
      SelfElement(BlockElement, s, e);
    }
  }

  lemma ItselfFits(s: Schema, c: Value)
    requires ConformsObject(s, c)
    ensures FitsObject(s, c, c)
  {}

  lemma NoSlots(s: Schema, c: Value, e: Value)
    requires Supported(s) && ConformsObject(s, c) && ConformsObject(s, e)
    ensures SetElements(BlockElement, s, [], [c, e], Unused(0)) ==
      [ProposedElement(BlockElement, s, Null, c), ProposedElement(BlockElement, s, Null, e)]
  {
    hide ProposedElement, ConformsObject, Supported;
    assert [c, e][1..] == [e] && [e][1..] == [];
  }

  // ------------------------------------------------------------ none of this fails

  lemma {:induction false} SelfNeverFails(s: Schema, c: Value)
    requires Supported(s) && ConformsObject(s, c)
    ensures !MayFail(s, c, c)
    decreases s, 1
  {
    hide ConformsAttribute, ConformsBlock, BlockMayFail;
    forall n <- s.blocks
      ensures !BlockMayFail(s.blocks[n], c.fields[n], c.fields[n])
    {
      SelfBlockNeverFails(s.blocks[n], c.fields[n]);
    }
  }

  lemma {:induction false} SelfBlockNeverFails(b: Block, c: Value)
    requires SupportedBlock(b) && ConformsBlock(b, c)
    ensures !BlockMayFail(b, c, c)
    decreases b
  {
    hide ConformsObject, Supported, MayFail, SetMayFail;
    if !c.Null? {
      match b.mode
      case Single => SelfNeverFails(b.body, c);
      case ListMode =>
        forall i | 0 <= i < |c.elems|
          ensures !MayFail(b.body, c.elems[i], c.elems[i])
        {
          SelfNeverFails(b.body, c.elems[i]);
        }
        assert !ListMayFail(b.body, c.elems, c.elems);
      case SetMode =>
        forall i | 0 <= i < |c.members|
          ensures ValidPriorFromConfig(BlockElement, b.body, c.members[i], c.members[i])
          ensures !MayFail(b.body, c.members[i], c.members[i])
        {
          SelfNeverFails(b.body, c.members[i]);
        }
        ReplayNeverFails(b.body, c.members, c.members, 0, Unused(|c.members|));
        assert c.members[0..] == c.members;
      case MapMode =>
    }
  }

  lemma {:induction false} NothingNeverFails(s: Schema, c: Value)
    requires Supported(s) && ConformsObject(s, c)
    ensures !MayFail(s, Null, c)
    decreases s, 1
  {
    hide ConformsAttribute, ConformsBlock, BlockMayFail, EmptyBlock;
    forall n <- s.blocks
      ensures EmptyValue(s).fields[n] == EmptyBlock(s.blocks[n])
      ensures !BlockMayFail(s.blocks[n], EmptyBlock(s.blocks[n]), c.fields[n])
    {
      EmptyBlockNeverFails(s.blocks[n], c.fields[n]);
    }
  }

  lemma {:induction false} EmptyBlockNeverFails(b: Block, c: Value)
    requires SupportedBlock(b) && ConformsBlock(b, c)
    ensures !BlockMayFail(b, EmptyBlock(b), c)
    decreases b
  {
    hide ConformsObject, Supported, MayFail, SetMayFail;
    if !c.Null? {
      match b.mode
      case Single => NothingNeverFails(b.body, c);
      case SetMode => NoPriorsNeverFail(b.body, c.members);
      case ListMode => assert !ListMayFail(b.body, [], c.elems);
      case MapMode =>
    }
  }

  lemma {:induction false} NoPriorsNeverFail(s: Schema, configs: seq<Value>)
    requires Supported(s) && AllConform(s, configs)
    ensures !SetMayFail(s, [], configs, Unused(0))
    decreases s, 2, |configs|
  {
    hide ConformsObject, Supported, MayFail;
    if configs != [] {
      NothingNeverFails(s, configs[0]);
      NoPriorsNeverFail(s, configs[1..]);
    }
  }

  lemma {:induction false} FilledNeverReaches(kind: ElementKind, s: Schema, prior: Value, c: Value)
    requires SupportedElement(kind, s) && Conforms(s, prior) && ConformsObject(s, c)
    requires if kind.BlockElement? then prior.Null?
             else prior.Obj? && forall n <- s.attrs :: prior.fields[n] == EmptyAttribute(s.attrs[n])
    ensures !Reaches(s, ProposedElement(kind, s, prior, c), c)
    decreases s, 1
  {
    hide ProposedElement, ProposedAttribute, ProposedBlock, ConformsAttribute, ConformsBlock, ReachesAttribute,
      ReachesBlock, EmptyAttribute, EmptyBlock;
    var out := ProposedElement(kind, s, prior, c);
    ElementFields(kind, s, prior, c);
    forall n <- s.attrs
      ensures !ReachesAttribute(s.attrs[n], out.fields[n], c.fields[n])
    {
      FilledAttributeNeverReaches(s.attrs[n], c.fields[n]);
    }
    forall n <- s.blocks
      ensures !ReachesBlock(s.blocks[n], out.fields[n], c.fields[n])
    {
      FilledBlockNeverReaches(s.blocks[n], c.fields[n]);
    }
  }

  lemma {:induction false} FilledAttributeNeverReaches(a: Attribute, c: Value)
    requires SupportedAttribute(a) && ConformsAttribute(a, c)
    ensures !ReachesAttribute(a, ProposedAttribute(a, EmptyAttribute(a), c), c)
    decreases a
  {
    hide NonComputedWithin;
    if a.Nested? && !c.Null? {
      if a.mode == Single {
        SingleOverEmpty(a);
        FilledNeverReaches(AttributeElement, a.body, EmptyAttribute(a), c);
      } else {
        NothingNesting(a.mode, AttributeElement, a.body, EmptyAttribute(a), c);
        AttributeNeverReaches(a, c);
      }
    }
  }

  lemma {:induction false} FilledBlockNeverReaches(b: Block, c: Value)
    requires SupportedBlock(b) && ConformsBlock(b, c)
    ensures !ReachesBlock(b, ProposedBlock(b, EmptyBlock(b), c), c)
    decreases b
  {
    if !c.Null? {
      match b.mode
      case Single =>
        assert ProposedBlock(b, EmptyBlock(b), c) == ProposedElement(BlockElement, b.body, Null, c);
        FilledNeverReaches(BlockElement, b.body, Null, c);
      case SetMode =>
      case _ =>
        NothingNesting(b.mode, BlockElement, b.body, EmptyBlock(b), c);
        BlockNeverReaches(b, c);
    }
  }

  /** Neither planning the two nor planning them again fails. */
  lemma TakeoverNeverFails(s: Schema, d: string, c: Value)
    requires Supported(s) && ConformsObject(s, c) && Sets(s, d, c) && !Refits(s, c)
    ensures var out, e := ProposedElement(BlockElement, s, Null, c), Companion(s, d, c);
      && ConformsObject(s, e)
      && !SetMayFail(s, [], [c, e], Unused(0)) && !SetMayFail(s, [out, e], [c, e], Unused(2))
  {
    hide ProposedElement, Companion, FitsObject, ConformsObject, Supported, Refits, Sets, MayFail, Reaches;
    var out, e := ProposedElement(BlockElement, s, Null, c), Companion(s, d, c);
    CompanionConforms(s, d, c);
    CompanionFits(s, d, c);
    ObjectOverNothing(BlockElement, s, Null, c);
    NoPriorsNeverFail(s, [c, e]);
    NothingNeverFails(s, c);
    CompanionNeverReaches(s, d, c);
    CompanionNeverFails(s, d, c);
    assert [c, e][1..] == [e] && [e][1..] == [];
    assert FirstMatch(BlockElement, s, [out, e], c, Unused(2), 0) == 2;
    assert FirstMatch(BlockElement, s, [out, e], e, Unused(2), 0) == 0;
    assert !ComparesReaching(s, [out, e], c, Unused(2)) && !ComparesReaching(s, [out, e], e, Unused(2));
    assert !SetMayFail(s, [out, e], [], Unused(2)[0 := true]);
    assert !SetMayFail(s, [out, e], [e], Unused(2));
  }

  lemma CompanionNeverReaches(s: Schema, d: string, c: Value)
    requires Supported(s) && ConformsObject(s, c) && Sets(s, d, c)
    ensures ConformsObject(s, Companion(s, d, c))
    ensures !Reaches(s, ProposedElement(BlockElement, s, Null, c), c) && !Reaches(s, Companion(s, d, c), c)
  {
    hide ProposedElement, Companion, ConformsAttribute, ConformsBlock, ReachesBlock, ReachesNesting;
    CompanionConforms(s, d, c);
    FilledNeverReaches(BlockElement, s, Null, c);
  }

  lemma CompanionNeverFails(s: Schema, d: string, c: Value)
    requires Supported(s) && ConformsObject(s, c) && Sets(s, d, c)
    ensures ConformsObject(s, Companion(s, d, c))
    ensures !MayFail(s, ProposedElement(BlockElement, s, Null, c), Companion(s, d, c))
  {
    hide ProposedElement, Companion, ConformsAttribute, ConformsBlock, BlockMayFail;
    CompanionConforms(s, d, c);
    var out := ProposedElement(BlockElement, s, Null, c);
    forall n <- s.blocks
      ensures !BlockMayFail(s.blocks[n], out.fields[n], out.fields[n])
    {
      SelfBlockNeverFails(s.blocks[n], out.fields[n]);
    }
  }

  // ------------------------------------------------------------------- whole schemas

  /** A value in which all is null. */
  function Nulls(s: Schema): (v: Value)
    ensures v.Obj?
  {
    Obj(map n | n in s.attrs.Keys + s.blocks.Keys :: Null)
  }

  /** An element of which only the computed leaf is configured. */
  lemma OnlyLeaf(s: Schema, d: string, a: string)
    requires Supported(s) && d in s.attrs && s.attrs[d].Leaf? && s.attrs[d].computed
    requires a in s.attrs && s.attrs[a].Nested? && !RefitsNull(s.attrs[a])
    ensures var c := Obj(Nulls(s).fields[d := Atom(7)]); ConformsObject(s, c) && Sets(s, d, c) && !Refits(s, c)
  {
    var c := Obj(Nulls(s).fields[d := Atom(7)]);
    assert !RefitsAttribute(s.attrs[a], c.fields[a]);
  }

  /** A value in which all is null but one block. */
  function OneBlock(s: Schema, n: string, v: Value): (w: Value)
    requires Supported(s) && n in s.blocks && ConformsBlock(s.blocks[n], v)
    ensures ConformsObject(s, w) && w.fields[n] == v
    ensures forall m <- s.blocks | m != n :: w.fields[m].Null?
  {
    Obj(Nulls(s).fields[n := v])
  }

  /** Planning again changes what is planned for the block, and nothing fails. */
  ghost predicate BlockUnstable(b: Block, prior: Value, config: Value)
    requires SupportedBlock(b)
  {
    && ConformsBlock(b, prior) && ConformsBlock(b, config)
    && var planned := ProposedBlock(b, prior, config);
      && ProposedBlock(b, planned, config) != planned
      && !BlockMayFail(b, prior, config) && !BlockMayFail(b, planned, config)
  }

  ghost predicate Unstable(s: Schema, prior: Value, config: Value)
    requires Supported(s)
  {
    && Conforms(s, prior) && ConformsObject(s, config)
    && var planned := ProposedNew(s, prior, config);
      && ProposedNew(s, planned, config) != planned
      && !MayFail(s, prior, config) && !MayFail(s, planned, config)
  }

  lemma SetBlock(b: Block, v: Value, members: seq<Value>)
    requires SupportedBlock(b) && b.mode == SetMode && ConformsBlock(b, v) && AllConform(b.body, members)
    ensures AllConform(b.body, MembersOf(v)) && ConformsBlock(b, SetV(members))
    ensures var before := MembersOf(v);
      && ProposedBlock(b, v, SetV(members)) ==
        SetV(SetElements(BlockElement, b.body, before, members, Unused(|before|)))
      && (BlockMayFail(b, v, SetV(members)) <==> SetMayFail(b.body, before, members, Unused(|before|)))
  {
    hide SetElements, SetMayFail, ConformsObject, Supported;
    assert v.Null? || ConformsNesting(SetMode, b.body, v);
    assert ProposedBlock(b, v, SetV(members)) == ProposedNesting(SetMode, BlockElement, b.body, v, SetV(members));
  }

  /** The set block of an element that does not refit and its companion. */
  lemma SetUnstable(b: Block, d: string, c: Value)
    requires SupportedBlock(b) && b.mode == SetMode
    requires ConformsObject(b.body, c) && Sets(b.body, d, c) && !Refits(b.body, c)
    ensures BlockUnstable(b, SetV([]), SetV([c, Companion(b.body, d, c)]))
  {
    hide Supported, ConformsObject, ProposedElement, Companion, Refits, SetElements, SetMayFail, Sets;
    var members := [c, Companion(b.body, d, c)];
    StableIffRefits(b.body, d, c);
    TakeoverNeverFails(b.body, d, c);
    SetBlock(b, SetV([]), members);
    SetBlock(b, ProposedBlock(b, SetV([]), SetV(members)), members);
  }

  lemma SingleUnstable(b: Block, prior: Value, config: Value)
    requires SupportedBlock(b) && b.mode == Single && Unstable(b.body, prior, config)
    ensures BlockUnstable(b, prior, config)
  {
    hide Supported, ConformsObject, ProposedNew, MayFail;
    SingleBlock(b, prior, config);
    SingleBlock(b, ProposedNew(b.body, prior, config), config);
  }

  lemma SingleBlock(b: Block, prior: Value, config: Value)
    requires SupportedBlock(b) && b.mode == Single && Conforms(b.body, prior) && ConformsObject(b.body, config)
    ensures ConformsBlock(b, prior) && ConformsBlock(b, config)
    ensures ProposedBlock(b, prior, config) == ProposedNew(b.body, prior, config)
    ensures BlockMayFail(b, prior, config) <==> MayFail(b.body, prior, config)
  {
    hide Supported, ProposedNew, MayFail;
    ProposedAsElement(b.body, prior, config);
  }

  lemma ListUnstable(b: Block, prior: Value, config: Value)
    requires SupportedBlock(b) && b.mode == ListMode && Unstable(b.body, prior, config) && prior.Obj?
    ensures BlockUnstable(b, ListV([prior]), ListV([config]))
  {
    hide Supported, ConformsObject, ProposedNew, MayFail;
    OneItem(b, prior, config);
    OneItem(b, ProposedNew(b.body, prior, config), config);
  }

  lemma OneItem(b: Block, prior: Value, config: Value)
    requires SupportedBlock(b) && b.mode == ListMode && ConformsObject(b.body, prior) && ConformsObject(b.body, config)
    ensures ConformsBlock(b, ListV([prior])) && ConformsBlock(b, ListV([config]))
    ensures ProposedBlock(b, ListV([prior]), ListV([config])) == ListV([ProposedNew(b.body, prior, config)])
    ensures BlockMayFail(b, ListV([prior]), ListV([config])) <==> MayFail(b.body, prior, config)
  {
    hide Supported, ConformsObject, ProposedNew, ProposedElement, MayFail, ListElements;
    ProposedAsElement(b.body, prior, config);
    ListElementsAt(BlockElement, b.body, [prior], [config], 0);
    assert ListMayFail(b.body, [prior], [config]) <==> MayFail(b.body, prior, config);
  }

  lemma OnlyBlockMayFail(s: Schema, n: string, from: Value, config: Value)
    requires Supported(s) && ConformsObject(s, from) && ConformsObject(s, config) && n in s.blocks
    requires (forall m <- s.blocks | m != n :: config.fields[m].Null?) && SomeBlockMayFail(s, from, config)
    ensures BlockMayFail(s.blocks[n], from.fields[n], config.fields[n])
  {
    hide NestingMayFail, ConformsBlock, ConformsAttribute;
  }

  /** A configuration of one block is planned as the block is. */
  lemma OneBlockPlanned(s: Schema, n: string, prior: Value, v: Value)
    requires Supported(s) && n in s.blocks && SupportedBlock(s.blocks[n]) && ConformsBlock(s.blocks[n], v)
    requires ConformsObject(s, prior) && ConformsBlock(s.blocks[n], prior.fields[n])
    ensures ProposedNew(s, prior, OneBlock(s, n, v)).fields[n] == ProposedBlock(s.blocks[n], prior.fields[n], v)
    ensures MayFail(s, prior, OneBlock(s, n, v)) ==> BlockMayFail(s.blocks[n], prior.fields[n], v)
  {
    hide ConformsAttribute, ConformsBlock, ProposedElement, OneBlock, SomeBlockMayFail, BlockMayFail, ProposedBlock,
      ProposedAttribute;
    var config := OneBlock(s, n, v);
    ProposedAsElement(s, prior, config);
    ElementFields(BlockElement, s, prior, config);
    if MayFail(s, prior, config) {
      OnlyBlockMayFail(s, n, prior, config);
    }
  }

  lemma BlockOfUnstable(s: Schema, n: string, prior: Value, config: Value)
    requires Supported(s) && n in s.blocks && SupportedBlock(s.blocks[n]) && BlockUnstable(s.blocks[n], prior, config)
    ensures Unstable(s, OneBlock(s, n, prior), OneBlock(s, n, config))
  {
    hide ConformsBlock, ConformsAttribute, ProposedNew, ProposedBlock, OneBlock, MayFail, BlockMayFail;
    var from := OneBlock(s, n, prior);
    OneBlockPlanned(s, n, from, config);
    OneBlockPlanned(s, n, ProposedNew(s, from, OneBlock(s, n, config)), config);
  }

  /** Somewhere below lists and single blocks, there is a set block whose elements have a computed leaf, and beside it
      an attribute that does not refit when it is left null. */
  ghost predicate HoldsTakeover(s: Schema) {
    exists n <- s.blocks :: BlockHoldsTakeover(s.blocks[n])
  }

  ghost predicate BlockHoldsTakeover(b: Block) {
    if b.mode == SetMode then
      exists d, a | d in b.body.attrs && a in b.body.attrs ::
        && b.body.attrs[d].Leaf? && b.body.attrs[d].computed
        && b.body.attrs[a].Nested? && !RefitsNull(b.body.attrs[a])
    else HoldsTakeover(b.body)
  }

  /** In every such schema, some prior state and configuration are planned to a state that planning again changes. */
  lemma {:induction false} ReplanChanges(s: Schema) returns (prior: Value, config: Value)
    requires Supported(s) && HoldsTakeover(s)
    ensures prior.Obj? && Unstable(s, prior, config)
    decreases s
  {
    hide Supported, Unstable, BlockUnstable, OneBlock;
    var n :| n in s.blocks && BlockHoldsTakeover(s.blocks[n]);
    BlocksSupported(s, n);
    var p, c := BlockReplanChanges(s.blocks[n]);
    BlockOfUnstable(s, n, p, c);
    assert ConformsBlock(s.blocks[n], p) && ConformsBlock(s.blocks[n], c) by {
      assert BlockUnstable(s.blocks[n], p, c);
    }
    prior, config := OneBlock(s, n, p), OneBlock(s, n, c);
  }

  lemma BlocksSupported(s: Schema, n: string)
    requires Supported(s) && n in s.blocks
    ensures SupportedBlock(s.blocks[n])
  {}

  lemma {:induction false} BlockReplanChanges(b: Block) returns (prior: Value, config: Value)
    requires SupportedBlock(b) && BlockHoldsTakeover(b)
    ensures BlockUnstable(b, prior, config)
    decreases b
  {
    hide Supported, Unstable, BlockUnstable, Refits, Sets, Nulls, ConformsObject;
    match b.mode
    case SetMode =>
      var d, a :| d in b.body.attrs && a in b.body.attrs && b.body.attrs[d].Leaf? && b.body.attrs[d].computed
        && b.body.attrs[a].Nested? && !RefitsNull(b.body.attrs[a]);
      OnlyLeaf(b.body, d, a);
      var c := Obj(Nulls(b.body).fields[d := Atom(7)]);
      SetUnstable(b, d, c);
      prior, config := SetV([]), SetV([c, Companion(b.body, d, c)]);
    case Single =>
      prior, config := ReplanChanges(b.body);
      SingleUnstable(b, prior, config);
    case ListMode =>
      var p, c := ReplanChanges(b.body);
      ListUnstable(b, p, c);
      prior, config := ListV([p]), ListV([c]);
  }

  function Target(): Attribute {
    Nested(true, true, Single, Schema(map["id" := Leaf(true, true)], map[]))
  }

  function Rule(): Schema {
    Schema(map["target" := Target(), "port" := Leaf(true, true)], map[])
  }

  lemma TargetDoesNotRefit()
    ensures SupportedAttribute(Target()) && Target().Nested? && !RefitsNull(Target())
  {
    var a := Target();
    assert "id" in a.body.attrs && !HoldsEmpty(a.body.attrs["id"]);
    assert !StaysNull(a);
    assert Supported(a.body);
  }

  lemma RuleHoldsTakeover()
    ensures SupportedBlock(Block(SetMode, Rule())) && BlockHoldsTakeover(Block(SetMode, Rule()))
  {
    hide RefitsNull, Target;
    TargetDoesNotRefit();
    var s := Rule();
    assert "port" in s.attrs && "target" in s.attrs;
    assert s.attrs["port"] == Leaf(true, true) && s.attrs["target"] == Target();
    assert forall n <- s.attrs :: n == "port" || n == "target";
  }

  /** Such a schema, of rules with a target, whose identity is computed, and a port. */
  lemma RulesChange() returns (prior: Value, config: Value)
    ensures var s := Schema(map[], map["rule" := Block(SetMode, Rule())]); Supported(s) && Unstable(s, prior, config)
  {
    hide Unstable, Rule, SupportedBlock, BlockHoldsTakeover;
    RuleHoldsTakeover();
    var s := Schema(map[], map["rule" := Block(SetMode, Rule())]);
    assert "rule" in s.blocks && s.blocks["rule"] == Block(SetMode, Rule());
    assert forall n <- s.blocks :: n == "rule";
    prior, config := ReplanChanges(s);
  }
}
