/** Where every value of a proposed state comes from, stated at paths of any depth. */
module ProposedStatePaths {
  import opened ProposedState
  import opened ProposedStateLaws
  import opened Wrappers

  datatype Step = Field(name: string) | Index(i: nat) | Key(key: string) | Slot(j: nat)
  type Path = seq<Step>

  function Child(v: Value, st: Step): Option<Value> {
    match st
    case Field(n) => if v.Obj? && n in v.fields then Some(v.fields[n]) else None
    case Index(i) => if v.ListV? && i < |v.elems| then Some(v.elems[i]) else None
    case Key(k) => if v.MapV? && k in v.entries then Some(v.entries[k]) else None
    case Slot(j) => if v.SetV? && j < |v.members| then Some(v.members[j]) else None
  }

  function At(v: Value, p: Path): Option<Value> {
    if p == [] then Some(v)
    else
      match Child(v, p[0])
      case None => None
      case Some(c) => At(c, p[1..])
  }

  lemma AtCons(v: Value, st: Step, p: Path)
    ensures At(v, [st] + p) == match Child(v, st) case None => None case Some(c) => At(c, p)
  {
    assert ([st] + p)[1..] == p;
  }

  lemma AtNull(p: Path)
    ensures At(Null, p).None? || At(Null, p).value.Null?
  {}

  /** The same leaf, or containers of one kind with the same fields, keys or length. */
  predicate SameHead(x: Value, y: Value) {
    match x
    case Null => y.Null?
    case Atom(_) => x == y
    case Obj(f) => y.Obj? && f.Keys == y.fields.Keys
    case ListV(e) => y.ListV? && |e| == |y.elems|
    case SetV(m) => y.SetV? && |m| == |y.members|
    case MapV(e) => y.MapV? && e.Keys == y.entries.Keys
  }

  // --------------------------------------------------------------- config wins

  /** The configuration's value at a path is there, down to equal leaves. */
  ghost predicate Keeps(out: Value, config: Value, p: Path) {
    At(config, p).Some? && !At(config, p).value.Null? ==>
      At(out, p).Some? && SameHead(At(out, p).value, At(config, p).value)
  }

  lemma KeepsItself(v: Value, p: Path)
    ensures Keeps(v, v, p)
  {}

  lemma KeepsBelow(out: Value, config: Value, p: Path)
    requires p != [] && Child(out, p[0]).Some? && Child(config, p[0]).Some?
    requires Keeps(Child(out, p[0]).value, Child(config, p[0]).value, p[1..])
    ensures Keeps(out, config, p)
  {}

  lemma {:induction false} ListKeepsConfig(kind: ElementKind, s: Schema, priors: seq<Value>, configs: seq<Value>,
                                           i: nat, p: Path)
    requires SupportedElement(kind, s)
    requires AllConform(s, priors) && AllConform(s, configs) && i < |configs|
    ensures Keeps(ListElements(kind, s, priors, configs)[i], configs[i], p)
    decreases s, 2
  {
    hide Supported, ConformsObject, ProposedElement, ListElements, Keeps;
    ListElementsAt(kind, s, priors, configs, i);
    if i < |priors| {
      ElementKeepsConfig(kind, s, priors[i], configs[i], p);
    } else {
      KeepsItself(configs[i], p);
    }
  }

  lemma {:induction false} SetKeepsConfig(kind: ElementKind, s: Schema, priors: seq<Value>, configs: seq<Value>,
                                          i: nat, p: Path)
    requires SupportedElement(kind, s) && AllConform(s, priors) && AllConform(s, configs) && i < |configs|
    ensures Keeps(SetElements(kind, s, priors, configs, Unused(|priors|))[i], configs[i], p)
    decreases s, 2
  {
    hide Supported, ConformsObject, ProposedElement, SetElements, SetChoices, ValidPriorFromConfig, Keeps;
    ElementsFollowChoices(kind, s, priors, configs, Unused(|priors|), i);
    var j := SetChoices(kind, s, priors, configs, Unused(|priors|))[i];
    ElementKeepsConfig(kind, s, if j < |priors| then priors[j] else Null, configs[i], p);
  }

  lemma {:induction false} MapKeepsConfig(
      kind: ElementKind, s: Schema, priors: map<string, Value>, configs: map<string, Value>, k: string, p: Path)
    requires SupportedElement(kind, s)
    requires forall j <- priors :: ConformsObject(s, priors[j])
    requires k in configs && forall j <- configs :: ConformsObject(s, configs[j])
    ensures Keeps(MapElements(kind, s, priors, configs)[k], configs[k], p)
    decreases s, 2
  {
    hide Supported, ConformsObject, ProposedElement, Keeps;
    if k in priors {
      ElementKeepsConfig(kind, s, priors[k], configs[k], p);
    } else {
      KeepsItself(configs[k], p);
    }
  }

  lemma {:induction false} NestingKeepsConfig(
      mode: NestingMode, kind: ElementKind, s: Schema, prior: Value, config: Value, p: Path)
    requires SupportedElement(kind, s)
    requires (prior.Null? || ConformsNesting(mode, s, prior)) && ConformsNesting(mode, s, config)
    ensures Keeps(ProposedNesting(mode, kind, s, prior, config), config, p)
    decreases s, 3
  {
    hide Supported, ConformsObject, ProposedElement, ListElements, SetElements, MapElements, At, Keeps;
    var out := ProposedNesting(mode, kind, s, prior, config);
    if mode == Single {
      ElementKeepsConfig(kind, s, prior, config, p);
    } else if p == [] {
      RootKept(out, config);
    } else if Child(config, p[0]).Some? {
      match p[0]
      case Index(i) =>
        ListKeepsConfig(kind, s, ElemsOf(prior), config.elems, i, p[1..]);
        assert Child(out, p[0]) == Some(ListElements(kind, s, ElemsOf(prior), config.elems)[i]);
        KeepsBelow(out, config, p);
      case Slot(j) =>
        SetKeepsConfig(kind, s, MembersOf(prior), config.members, j, p[1..]);
        assert Child(out, p[0]) ==
          Some(SetElements(kind, s, MembersOf(prior), config.members, Unused(|MembersOf(prior)|))[j]);
        KeepsBelow(out, config, p);
      case Key(k) =>
        MapKeepsConfig(kind, s, EntriesOf(prior), config.entries, k, p[1..]);
        assert Child(out, p[0]) == Some(MapElements(kind, s, EntriesOf(prior), config.entries)[k]);
        KeepsBelow(out, config, p);
      case Field(_) =>
    } else {
      NothingThere(out, config, p);
    }
  }

  lemma RootKept(out: Value, config: Value)
    requires SameHead(out, config)
    ensures Keeps(out, config, [])
  {}

  lemma NothingThere(out: Value, config: Value, p: Path)
    requires p != [] && Child(config, p[0]).None?
    ensures Keeps(out, config, p)
  {}

  lemma {:induction false} ElementKeepsConfig(kind: ElementKind, s: Schema, prior: Value, config: Value, p: Path)
    requires SupportedElement(kind, s)
    requires Conforms(s, prior) && ConformsObject(s, config)
    ensures Keeps(ProposedElement(kind, s, prior, config), config, p)
    decreases s, 1
  {
    hide ProposedElement, ProposedAttribute, ProposedBlock, ConformsAttribute, ConformsBlock, SupportedAttribute,
      SupportedBlock, PriorObject, At, Keeps;
    var out := ProposedElement(kind, s, prior, config);
    var from := PriorObject(kind, s, prior);
    ElementFields(kind, s, prior, config);
    if p == [] {
      RootKept(out, config);
    } else if Child(config, p[0]).Some? {
      var n := p[0].name;
      if n in s.attrs {
        AttributeKeepsConfig(s.attrs[n], PriorField(from, n), config.fields[n], p[1..]);
      } else {
        BlockKeepsConfig(s.blocks[n], from.fields[n], config.fields[n], p[1..]);
      }
      KeepsBelow(out, config, p);
    } else {
      NothingThere(out, config, p);
    }
  }

  lemma {:induction false} AttributeKeepsConfig(a: Attribute, prior: Value, config: Value, p: Path)
    requires SupportedAttribute(a) && ConformsAttribute(a, prior) && ConformsAttribute(a, config)
    ensures Keeps(ProposedAttribute(a, prior, config), config, p)
    decreases a
  {
    if a.Nested? && !config.Null? {
      NestingKeepsConfig(a.mode, AttributeElement, a.body, prior, config, p);
    }
  }

  lemma {:induction false} BlockKeepsConfig(b: Block, prior: Value, config: Value, p: Path)
    requires SupportedBlock(b) && ConformsBlock(b, prior) && ConformsBlock(b, config)
    ensures Keeps(ProposedBlock(b, prior, config), config, p)
    decreases b
  {
    if !config.Null? {
      NestingKeepsConfig(b.mode, BlockElement, b.body, prior, config, p);
    }
  }

  /** Config wins: what the configuration holds at any path, other than null, is what the
      proposed state holds there, down to equal leaves. */
  lemma ConfigWins(s: Schema, prior: Value, config: Value, p: Path)
    requires Supported(s) && Conforms(s, prior) && Conforms(s, config)
    requires At(config, p).Some? && !At(config, p).value.Null?
    ensures var x := At(ProposedNew(s, prior, config), p);
            x.Some? && SameHead(x.value, At(config, p).value)
  {
    assert !config.Null?;
    ElementKeepsConfig(BlockElement, s, prior, config, p);
  }
}
