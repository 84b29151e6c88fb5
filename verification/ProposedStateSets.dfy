/** What the correlation of set elements promises: in a block, a prior element is only used where it agrees with the
    configured one; in a nested attribute, its shape is all that counts. */
module ProposedStateSets {
  import opened ProposedState
  import opened ProposedStateLaws
  import opened ProposedStatePaths
  import opened ProposedStateProvenance
  import opened ProposedStateReplan
  import opened Wrappers

  // ------------------------------------------------------------------ set blocks

  /** A leaf attribute that the prior value holds at a path is configured to the same value, or computed
      and null in the configuration; the merge keeps it. */
  ghost predicate Absorbed(pos: Position, prior: Value, config: Value, out: Value, p: Path) {
    var a := AttributeAt(pos, p);
    a.Some? && a.value.Leaf? && At(prior, p).Some? ==>
      && At(config, p).Some?
      && At(out, p) == At(prior, p)
      && (At(config, p) == At(prior, p) || (a.value.computed && At(config, p).value.Null?))
  }

  /** A part of the values that a step leads into. */
  lemma AbsorbedBelow(pos: Position, pos': Position, prior: Value, config: Value, out: Value, p: Path)
    requires p != [] && Child(prior, p[0]).Some? && Child(config, p[0]).Some? && Child(out, p[0]).Some?
    requires Below(pos, p[0]) == Some(pos')
    requires Absorbed(pos', Child(prior, p[0]).value, Child(config, p[0]).value, Child(out, p[0]).value, p[1..])
    ensures Absorbed(pos, prior, config, out, p)
  {
    AttributeAtStep(pos, p);
    AtStep(prior, p);
    AtStep(config, p);
    AtStep(out, p);
    hide AttributeAt, At, Below, Child;
  }

  lemma AbsorbedNothing(pos: Position, prior: Value, config: Value, out: Value, p: Path)
    requires p != [] && Child(prior, p[0]).None?
    ensures Absorbed(pos, prior, config, out, p)
  {
    hide AttributeAt;
  }

  lemma AbsorbedSame(pos: Position, v: Value, p: Path)
    ensures Absorbed(pos, v, v, v, p)
  {
    hide AttributeAt;
  }

  lemma AbsorbedAt(pos: Position, pos': Position, prior: Value, config: Value, out: Value, p: Path)
    requires AttributeAt(pos, p) == AttributeAt(pos', p) && Absorbed(pos', prior, config, out, p)
    ensures Absorbed(pos, prior, config, out, p)
  {
    hide AttributeAt;
  }

  lemma {:induction false} ElementAbsorbs(kind: ElementKind, s: Schema, prior: Value, config: Value, p: Path)
    requires SupportedElement(kind, s) && ConformsObject(s, prior) && ConformsObject(s, config)
    requires FitsObject(s, prior, config)
    ensures Absorbed(AtElement(kind, s), prior, config, ProposedElement(kind, s, prior, config), p)
    decreases s, 1
  {
    hide ProposedElement, ProposedAttribute, ProposedBlock, Absorbed, ConformsAttribute, ConformsBlock, FitsAttribute,
      FitsBlock, At;
    var out := ProposedElement(kind, s, prior, config);
    if prior == config {
      SelfElement(kind, s, config);
      AbsorbedSame(AtElement(kind, s), config, p);
    } else if p == [] {
      AbsorbedAtElement(kind, s, prior, config, out);
    } else if Child(prior, p[0]).Some? {
      ElementFields(kind, s, prior, config);
      var n := p[0].name;
      if n in s.attrs {
        AttributeAbsorbs(s.attrs[n], prior.fields[n], config.fields[n], p[1..]);
        AbsorbedBelow(AtElement(kind, s), AtAttribute(s.attrs[n]), prior, config, out, p);
      } else {
        BlockAbsorbs(s.blocks[n], prior.fields[n], config.fields[n], p[1..]);
        AbsorbedBelow(AtElement(kind, s), AtNesting(s.blocks[n].mode, BlockElement, s.blocks[n].body), prior, config,
          out, p);
      }
    } else {
      AbsorbedNothing(AtElement(kind, s), prior, config, out, p);
    }
  }

  lemma AbsorbedAtElement(kind: ElementKind, s: Schema, prior: Value, config: Value, out: Value)
    ensures Absorbed(AtElement(kind, s), prior, config, out, [])
  {}

  lemma {:induction false} AttributeAbsorbs(a: Attribute, prior: Value, config: Value, p: Path)
    requires SupportedAttribute(a) && ConformsAttribute(a, prior) && ConformsAttribute(a, config)
    requires FitsAttribute(a, prior, config)
    ensures Absorbed(AtAttribute(a), prior, config, ProposedAttribute(a, prior, config), p)
    decreases a
  {
    if prior == config {
      SelfAttribute(a, config);
      AbsorbedSame(AtAttribute(a), config, p);
    } else if a.Nested? && p != [] {
      var out := ProposedAttribute(a, prior, config);
      if config.Null? {
        NullAbsorbs(a.mode, AttributeElement, a.body, prior, out, p);
      } else {
        NestingAbsorbs(a.mode, AttributeElement, a.body, prior, config, p);
      }
      AbsorbedAt(AtAttribute(a), AtNesting(a.mode, AttributeElement, a.body), prior, config, out, p);
    }
  }

  lemma {:induction false} BlockAbsorbs(b: Block, prior: Value, config: Value, p: Path)
    requires SupportedBlock(b) && ConformsBlock(b, prior) && ConformsBlock(b, config)
    requires FitsBlock(b, prior, config)
    ensures Absorbed(AtNesting(b.mode, BlockElement, b.body), prior, config, ProposedBlock(b, prior, config), p)
    decreases b
  {
    if prior == config {
      SelfBlock(b, config);
      AbsorbedSame(AtNesting(b.mode, BlockElement, b.body), config, p);
    } else if config.Null? {
      NullAbsorbs(b.mode, BlockElement, b.body, prior, ProposedBlock(b, prior, config), p);
    } else {
      NestingAbsorbs(b.mode, BlockElement, b.body, prior, config, p);
    }
  }

  /** What fits null holds nothing. */
  lemma NullAbsorbs(mode: NestingMode, kind: ElementKind, s: Schema, prior: Value, out: Value, p: Path)
    requires (prior.Null? || ConformsNesting(mode, s, prior)) && FitsNesting(mode, s, prior, Null)
    ensures Absorbed(AtNesting(mode, kind, s), prior, Null, out, p)
  {}

  lemma {:induction false} NestingAbsorbs(mode: NestingMode, kind: ElementKind, s: Schema, prior: Value, config: Value,
                                          p: Path)
    requires SupportedElement(kind, s)
    requires (prior.Null? || ConformsNesting(mode, s, prior)) && ConformsNesting(mode, s, config)
    requires FitsNesting(mode, s, prior, config)
    ensures Absorbed(AtNesting(mode, kind, s), prior, config, ProposedNesting(mode, kind, s, prior, config), p)
    decreases s, 2
  {
    hide ConformsObject, Supported, ProposedElement, FitsObject, ListElements, Absorbed, At;
    var out, pos := ProposedNesting(mode, kind, s, prior, config), AtNesting(mode, kind, s);
    if prior.Null? || p == [] {
      AbsorbedTop(mode, kind, s, prior, config, out, p);
    } else if mode == Single {
      SingleFits(s, prior, config);
      ElementAbsorbs(kind, s, prior, config, p);
      AbsorbedAt(pos, AtElement(kind, s), prior, config, out, p);
    } else if Child(prior, p[0]).None? {
      AbsorbedNothing(pos, prior, config, out, p);
    } else {
      PrefixNesting(mode, kind, s, prior, config);
      var v := Child(prior, p[0]).value;
      assert Child(config, p[0]) == Some(v);
      AbsorbedSame(AtElement(kind, s), v, p[1..]);
      AbsorbedBelow(pos, AtElement(kind, s), prior, config, out, p);
    }
  }

  lemma SingleFits(s: Schema, prior: Value, config: Value)
    requires ConformsObject(s, prior) && ConformsObject(s, config) && FitsFields(s, prior, config)
    ensures FitsObject(s, prior, config)
  {}

  lemma AbsorbedTop(mode: NestingMode, kind: ElementKind, s: Schema, prior: Value, config: Value, out: Value, p: Path)
    requires prior.Null? || p == []
    ensures Absorbed(AtNesting(mode, kind, s), prior, config, out, p)
  {}

  /** Set correlation. No prior element serves twice. In a block, every leaf of the prior element that was chosen
      is in the planned one and differs from the configured one only where it is computed and left null; and a
      configured element goes without only when every prior element that fits it has been taken by an
      earlier one. */
  lemma SetCorrelation(kind: ElementKind, s: Schema, priors: seq<Value>, configs: seq<Value>, i: nat)
    requires SupportedElement(kind, s) && AllConform(s, priors) && AllConform(s, configs) && i < |configs|
    ensures var js := SetChoices(kind, s, priors, configs, Unused(|priors|));
            var out := SetElements(kind, s, priors, configs, Unused(|priors|))[i];
            && OneToOne(js, Unused(|priors|))
            && (js[i] < |priors| && kind == BlockElement ==>
                  forall p: Path :: Absorbed(AtElement(kind, s), priors[js[i]], configs[i], out, p))
            && (js[i] >= |priors| ==>
                  forall m | 0 <= m < |priors| && ValidPriorFromConfig(kind, s, priors[m], configs[i]) :: m in js[..i])
            && (js[i] >= |priors| ==> (out == configs[i] <==> kind == AttributeElement || Exact(s, configs[i])))
  {
    hide ConformsObject, ValidPriorFromConfig, Supported, OneToOne, ProposedElement, SetElements, SetChoices,
      Absorbed, Exact;
    var used := Unused(|priors|);
    var js := SetChoices(kind, s, priors, configs, used);
    ChoicesAreOneToOne(kind, s, priors, configs, used);
    ElementsFollowChoices(kind, s, priors, configs, used, i);
    if js[i] < |priors| {
      if kind == BlockElement {
        forall p: Path
          ensures Absorbed(AtElement(kind, s), priors[js[i]], configs[i],
            SetElements(kind, s, priors, configs, used)[i], p)
        {
          BlockFits(s, priors[js[i]], configs[i]);
          ElementAbsorbs(kind, s, priors[js[i]], configs[i], p);
        }
      }
    } else {
      forall m | 0 <= m < |priors| && ValidPriorFromConfig(kind, s, priors[m], configs[i])
        ensures m in js[..i]
      {
        ChoicesAreMaximal(kind, s, priors, configs, used, i, m);
      }
      if kind == BlockElement {
        ObjectOverNothing(kind, s, Null, configs[i]);
      } else {
        NullElement(s, configs[i]);
      }
    }
  }

  lemma BlockFits(s: Schema, prior: Value, config: Value)
    requires ConformsObject(s, prior) && ConformsObject(s, config) &&
      ValidPriorFromConfig(BlockElement, s, prior, config)
    ensures FitsObject(s, prior, config)
  {}

  /** Where all attributes are leaves, a planned element is the chosen prior element or the configured one, verbatim. */
  lemma LeafElementsVerbatim(s: Schema, priors: seq<Value>, configs: seq<Value>, i: nat)
    requires Supported(s) && AllConform(s, priors) && AllConform(s, configs) && i < |configs|
    requires s.blocks == map[] && forall n <- s.attrs :: s.attrs[n].Leaf?
    ensures var j := SetChoices(BlockElement, s, priors, configs, Unused(|priors|))[i];
            SetElements(BlockElement, s, priors, configs, Unused(|priors|))[i] ==
              if j < |priors| then priors[j] else configs[i]
  {
    hide SetElements, SetChoices, ProposedElement, FitsObject, ConformsObject, Supported, Exact;
    ElementsFollowChoices(BlockElement, s, priors, configs, Unused(|priors|), i);
    var j := SetChoices(BlockElement, s, priors, configs, Unused(|priors|))[i];
    if j < |priors| {
      LeafElement(s, priors[j], configs[i]);
    } else {
      LeafExact(s, configs[i]);
      ObjectOverNothing(BlockElement, s, Null, configs[i]);
    }
  }

  lemma LeafExact(s: Schema, c: Value)
    requires ConformsObject(s, c) && s.blocks == map[] && forall n <- s.attrs :: s.attrs[n].Leaf?
    ensures Exact(s, c)
  {}

  lemma LeafElement(s: Schema, prior: Value, config: Value)
    requires Supported(s) && ConformsObject(s, prior) && ConformsObject(s, config) && FitsObject(s, prior, config)
    requires s.blocks == map[] && forall n <- s.attrs :: s.attrs[n].Leaf?
    ensures ProposedElement(BlockElement, s, prior, config) == prior
  {
    hide ProposedElement, ProposedAttribute;
    ElementFields(BlockElement, s, prior, config);
    FieldByField(s, prior, config);
    var out := ProposedElement(BlockElement, s, prior, config);
    forall n <- s.attrs
      ensures out.fields[n] == prior.fields[n]
    {
      LeafProposed(s.attrs[n], prior.fields[n], config.fields[n]);
    }
    FieldByField(s, out, prior);
  }

  // ----------------------------------------------------- sets of nested attributes

  /** Values that differ in single values only, which may be null; there are no sets in them. */
  predicate SameShape(v: Value, w: Value) {
    match v
    case Null => w.Null? || w.Atom?
    case Atom(_) => w.Null? || w.Atom?
    case Obj(m) => w.Obj? && m.Keys == w.fields.Keys && forall n <- m :: SameShape(m[n], w.fields[n])
    case ListV(es) => w.ListV? && |es| == |w.elems| && forall i | 0 <= i < |es| :: SameShape(es[i], w.elems[i])
    case MapV(m) => w.MapV? && m.Keys == w.entries.Keys && forall k <- m :: SameShape(m[k], w.entries[k])
    case SetV(_) => false
  }

  lemma {:induction false} SameShapeFits(v: Value, w: Value)
    requires SameShape(v, w)
    ensures FitsShape(v, w)
  {
    match v
    case Obj(m) =>
      forall n <- m { SameShapeFits(m[n], w.fields[n]); }
    case ListV(es) =>
      forall i | 0 <= i < |es| { SameShapeFits(es[i], w.elems[i]); }
    case MapV(m) =>
      forall k <- m { SameShapeFits(m[k], w.entries[k]); }
    case _ =>
  }

  lemma {:induction false} SameShapeTrans(u: Value, v: Value, w: Value)
    requires SameShape(u, v) && SameShape(u, w)
    ensures SameShape(v, w)
  {
    match u
    case Obj(m) =>
      forall n <- m { SameShapeTrans(m[n], v.fields[n], w.fields[n]); }
    case ListV(es) =>
      forall i | 0 <= i < |es| { SameShapeTrans(es[i], v.elems[i], w.elems[i]); }
    case MapV(m) =>
      forall k <- m { SameShapeTrans(m[k], v.entries[k], w.entries[k]); }
    case _ =>
  }

  /** Whether a prior value fits by shape does not depend on any single value. */
  lemma {:induction false} FitsByShape(p: Value, c: Value, p': Value, c': Value)
    requires SameShape(p, p') && SameShape(c, c') && FitsShape(p, c)
    ensures FitsShape(p', c')
    decreases p
  {
    if p == c {
      SameShapeTrans(p, p', c');
      SameShapeFits(p', c');
    } else {
      match p
      case Obj(m) =>
        forall n <- m { FitsByShape(m[n], c.fields[n], p'.fields[n], c'.fields[n]); }
      case ListV(es) =>
        var es' := p'.elems;
        forall i | 0 <= i < |es'|
          ensures i < |ElemsOf(c')| && FitsShape(es'[i], ElemsOf(c')[i])
        {
          FitsByShape(es[i], ElemsOf(c)[i], es'[i], ElemsOf(c')[i]);
        }
      case MapV(m) =>
        forall k <- m { FitsByShape(m[k], c.entries[k], p'.entries[k], c'.entries[k]); }
      case _ =>
    }
  }

  ghost predicate SameShapes(vs: seq<Value>, ws: seq<Value>) {
    |vs| == |ws| && forall i | 0 <= i < |vs| :: SameShape(vs[i], ws[i]) && SameShape(ws[i], vs[i])
  }

  lemma FitsIffByShape(p: Value, c: Value, p': Value, c': Value)
    requires SameShape(p, p') && SameShape(p', p) && SameShape(c, c') && SameShape(c', c)
    ensures FitsShape(p, c) <==> FitsShape(p', c')
  {
    hide SameShape, FitsShape;
    if FitsShape(p, c) {
      FitsByShape(p, c, p', c');
    }
    if FitsShape(p', c') {
      FitsByShape(p', c', p, c);
    }
  }

  lemma {:induction false} FirstMatchByShape(
      s: Schema, ps: seq<Value>, c: Value, ps': seq<Value>, c': Value, used: seq<bool>, i: nat)
    requires AllConform(s, ps) && AllConform(s, ps') && ConformsObject(s, c) && ConformsObject(s, c')
    requires |used| == |ps| && i <= |ps| && SameShapes(ps, ps') && SameShape(c, c') && SameShape(c', c)
    ensures FirstMatch(AttributeElement, s, ps, c, used, i) == FirstMatch(AttributeElement, s, ps', c', used, i)
    decreases |ps| - i
  {
    if i < |ps| {
      FitsIffByShape(ps[i], c, ps'[i], c');
      FirstMatchByShape(s, ps, c, ps', c', used, i + 1);
      hide ConformsObject, SameShape, FitsShape;
    }
  }

  /** In a set of nested attributes, which prior element goes to which configured one depends on their shapes alone:
      other values in their places are paired alike. */
  lemma {:induction false} PairedByShape(
      s: Schema, ps: seq<Value>, cs: seq<Value>, ps': seq<Value>, cs': seq<Value>, used: seq<bool>)
    requires AllConform(s, ps) && AllConform(s, ps') && AllConform(s, cs) && AllConform(s, cs') && |used| == |ps|
    requires SameShapes(ps, ps') && SameShapes(cs, cs')
    ensures SetChoices(AttributeElement, s, ps, cs, used) == SetChoices(AttributeElement, s, ps', cs', used)
    decreases |cs|
  {
    hide ConformsObject, SameShape, FirstMatch;
    if cs != [] {
      FirstMatchByShape(s, ps, cs[0], ps', cs'[0], used, 0);
      var j := FirstMatch(AttributeElement, s, ps, cs[0], used, 0);
      PairedByShape(s, ps, cs[1..], ps', cs'[1..], if j < |ps| then used[j := true] else used);
    }
  }

  /** Every prior element has a shape that fits every configured one. */
  ghost predicate AllFitShape(priors: seq<Value>, configs: seq<Value>) {
    forall m, i | 0 <= m < |priors| && 0 <= i < |configs| :: FitsShape(priors[m], configs[i])
  }

  /** The prior element of a configured one is then the next in order, whatever it holds. */
  lemma {:induction false} PairedInOrder(s: Schema, priors: seq<Value>, configs: seq<Value>, used: seq<bool>, k: nat,
                                         i: nat)
    requires AllConform(s, priors) && AllConform(s, configs) && AllFitShape(priors, configs)
    requires |used| == |priors| && UsedUpTo(used, k) && i < |configs|
    ensures SetChoices(AttributeElement, s, priors, configs, used)[i] == if k + i < |priors| then k + i else |priors|
    decreases i
  {
    hide ConformsObject, FitsShape;
    var j := FirstMatch(AttributeElement, s, priors, configs[0], used, 0);
    assert k < |priors| ==> FitsShape(priors[k], configs[0]);
    assert j == k;
    if i > 0 {
      assert AllFitShape(priors, configs[1..]);
      PairedInOrder(s, priors, configs[1..], if j < |priors| then used[j := true] else used,
                    if j < |priors| then k + 1 else k, i - 1);
    }
  }

  /** The prior element differs from the configured one in computed attributes that are left null only. */
  ghost predicate OnlyComputedDiffer(s: Schema, prior: Value, config: Value)
    requires ConformsObject(s, prior) && ConformsObject(s, config)
  {
    forall n <- s.attrs | prior.fields[n] != config.fields[n] :: s.attrs[n].computed && config.fields[n].Null?
  }

  /** In a set of nested attributes whose shapes all fit, the i-th prior element is merged into the i-th configured one.
      So all pairs are ones that the configuration could have led to exactly when those in order are. */
  lemma NestedSetsPairInOrder(s: Schema, priors: seq<Value>, configs: seq<Value>)
    requires SupportedElement(AttributeElement, s) && AllConform(s, priors) && AllConform(s, configs)
    requires AllFitShape(priors, configs)
    ensures var js := SetChoices(AttributeElement, s, priors, configs, Unused(|priors|));
            var outs := SetElements(AttributeElement, s, priors, configs, Unused(|priors|));
            && (forall i | 0 <= i < |configs| :: outs[i] ==
                  if i < |priors| then ProposedElement(AttributeElement, s, priors[i], configs[i]) else configs[i])
            && ((forall i | 0 <= i < |configs| && js[i] < |priors| ::
                   OnlyComputedDiffer(s, priors[js[i]], configs[i])) <==>
                (forall i | 0 <= i < |configs| && i < |priors| :: OnlyComputedDiffer(s, priors[i], configs[i])))
  {
    hide ConformsObject, ValidPriorFromConfig, ProposedElement, SetElements, SetChoices, OnlyComputedDiffer,
      AllFitShape;
    var js := SetChoices(AttributeElement, s, priors, configs, Unused(|priors|));
    var outs := SetElements(AttributeElement, s, priors, configs, Unused(|priors|));
    forall i | 0 <= i < |configs|
      ensures js[i] == if i < |priors| then i else |priors|
      ensures outs[i] ==
        if i < |priors| then ProposedElement(AttributeElement, s, priors[i], configs[i]) else configs[i]
    {
      PairedInOrder(s, priors, configs, Unused(|priors|), 0, i);
      ElementsFollowChoices(AttributeElement, s, priors, configs, Unused(|priors|), i);
      NullElement(s, configs[i]);
    }
  }

  /** A set of nested attributes with a name and a computed number. */
  function MemberSchema(): Schema {
    Schema(map["name" := Leaf(false, false), "number" := Leaf(true, false)], map[])
  }

  function Member(name: Value, number: Value): Value {
    Obj(map["name" := name, "number" := number])
  }

  /** The first of two elements is removed from the configuration: the other takes over its number. */
  lemma NumberOfAnother()
    ensures var s := MemberSchema();
            var priors, configs := [Member(Atom(1), Atom(10)), Member(Atom(2), Atom(20))], [Member(Atom(2), Null)];
            && Supported(s) && AllConform(s, priors) && AllConform(s, configs)
            && SetElements(AttributeElement, s, priors, configs, Unused(2)) == [Member(Atom(2), Atom(10))]
            && SetElements(BlockElement, s, priors, configs, Unused(2)) == [Member(Atom(2), Atom(20))]
  {
    hide ProposedElement, FitsObject, ConformsObject, MemberSchema, FitsShape;
    var s := MemberSchema();
    var priors, configs := [Member(Atom(1), Atom(10)), Member(Atom(2), Atom(20))], [Member(Atom(2), Null)];
    MembersFit();
    assert AllConform(s, priors) && AllConform(s, configs);
    MemberMerged(AttributeElement, priors[0], configs[0]);
    MemberMerged(BlockElement, priors[1], configs[0]);
    assert FirstMatch(AttributeElement, s, priors, configs[0], Unused(2), 0) == 0;
    assert FirstMatch(BlockElement, s, priors, configs[0], Unused(2), 0) == 1;
    assert configs[1..] == [];
  }

  lemma MembersFit()
    ensures Supported(MemberSchema()) && MemberSchema().blocks == map[]
    ensures ConformsObject(MemberSchema(), Member(Atom(1), Atom(10))) &&
      ConformsObject(MemberSchema(), Member(Atom(2), Atom(20)))
    ensures ConformsObject(MemberSchema(), Member(Atom(2), Null))
    ensures FitsShape(Member(Atom(1), Atom(10)), Member(Atom(2), Null))
    ensures !FitsObject(MemberSchema(), Member(Atom(1), Atom(10)), Member(Atom(2), Null))
    ensures FitsObject(MemberSchema(), Member(Atom(2), Atom(20)), Member(Atom(2), Null))
  {
    hide FitsObject, ConformsObject;
    MembersConform();
    MemberFits(Atom(1), Atom(10), Atom(2), Null);
    MemberFits(Atom(2), Atom(20), Atom(2), Null);
  }

  lemma MemberFits(name: Value, number: Value, name': Value, number': Value)
    requires name.Atom? && name'.Atom? && !number.SetV? && !number'.SetV?
    ensures ConformsObject(MemberSchema(), Member(name, number)) &&
      ConformsObject(MemberSchema(), Member(name', number'))
    ensures FitsObject(MemberSchema(), Member(name, number), Member(name', number')) <==>
      name == name' && (number == number' || number'.Null?)
  {
    hide FitsAttribute, ConformsAttribute;
    MembersConform();
    LeafFits(Leaf(false, false), name, name');
    LeafFits(Leaf(true, false), number, number');
    var s, p, c := MemberSchema(), Member(name, number), Member(name', number');
    assert p == c <==> name == name' && number == number' by {
      assert p.fields["name"] == name && c.fields["name"] == name';
      assert p.fields["number"] == number && c.fields["number"] == number';
    }
    assert "name" in s.attrs && "number" in s.attrs;
  }

  lemma LeafFits(a: Attribute, prior: Value, config: Value)
    requires a.Leaf? && !prior.SetV? && !config.SetV?
    ensures ConformsAttribute(a, prior) && ConformsAttribute(a, config)
    ensures FitsAttribute(a, prior, config) <==> prior == config || (a.computed && config.Null?)
  {}

  lemma MembersConform()
    ensures Supported(MemberSchema())
    ensures forall x, y :: ConformsObject(MemberSchema(), Member(x, y))
  {}

  lemma MemberFields(v: Value)
    requires ConformsObject(MemberSchema(), v)
    ensures v.Obj? && v.fields.Keys == {"name", "number"}
  {}

  lemma MemberMerged(kind: ElementKind, prior: Value, config: Value)
    requires ConformsObject(MemberSchema(), prior) && ConformsObject(MemberSchema(), config)
    ensures Supported(MemberSchema()) && MemberSchema().blocks == map[]
    ensures config.Obj? && config.fields.Keys == {"name", "number"} == prior.fields.Keys
    ensures ProposedElement(kind, MemberSchema(), prior, config) ==
      Member(config.fields["name"],
             if config.fields["number"].Null? then prior.fields["number"] else config.fields["number"])
  {
    hide ProposedElement, ProposedAttribute, ConformsAttribute, ConformsObject, Supported;
    MembersConform();
    MemberFields(prior);
    MemberFields(config);
    var s := MemberSchema();
    ElementFields(kind, s, prior, config);
    var out := ProposedElement(kind, s, prior, config);
    MemberFields(out);
    LeafProposed(s.attrs["name"], prior.fields["name"], config.fields["name"]);
    LeafProposed(s.attrs["number"], prior.fields["number"], config.fields["number"]);
    assert out.fields == Member(out.fields["name"], out.fields["number"]).fields;
  }
}
