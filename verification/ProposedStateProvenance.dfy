/** Where every value of a proposed state comes from that the configuration does not hold. */
module ProposedStateProvenance {
  import opened ProposedState
  import opened ProposedStateLaws
  import opened ProposedStatePaths
  import opened Wrappers

  // ------------------------------------------------------------ places in a schema

  /** A place in a schema: an attribute, an element object, or a container of elements. */
  datatype Position =
    | AtAttribute(a: Attribute)
    | AtNesting(mode: NestingMode, kind: ElementKind, s: Schema)
    | AtElement(kind: ElementKind, s: Schema)

  function BelowElement(s: Schema, st: Step): Option<Position> {
    if !st.Field? then None
    else if st.name in s.attrs then Some(AtAttribute(s.attrs[st.name]))
    else if st.name in s.blocks then Some(AtNesting(s.blocks[st.name].mode, BlockElement, s.blocks[st.name].body))
    else None
  }

  function BelowNesting(mode: NestingMode, kind: ElementKind, s: Schema, st: Step): Option<Position> {
    match mode
    case Single => BelowElement(s, st)
    case ListMode => if st.Index? then Some(AtElement(kind, s)) else None
    case SetMode => if st.Slot? then Some(AtElement(kind, s)) else None
    case MapMode => if st.Key? then Some(AtElement(kind, s)) else None
  }

  function Below(pos: Position, st: Step): Option<Position> {
    match pos
    case AtAttribute(a) => if a.Leaf? then None else BelowNesting(a.mode, AttributeElement, a.body, st)
    case AtNesting(mode, kind, s) => BelowNesting(mode, kind, s, st)
    case AtElement(_, s) => BelowElement(s, st)
  }

  /** The attribute a path leads to, if any. */
  function AttributeAt(pos: Position, p: Path): Option<Attribute>
    decreases |p|
  {
    if p == [] then if pos.AtAttribute? then Some(pos.a) else None
    else
      match Below(pos, p[0])
      case None => None
      case Some(pos') => AttributeAt(pos', p[1..])
  }

  ghost predicate ConformsAt(pos: Position, v: Value) {
    match pos
    case AtAttribute(a) => SupportedAttribute(a) && ConformsAttribute(a, v)
    case AtNesting(mode, kind, s) => SupportedElement(kind, s) && (v.Null? || ConformsNesting(mode, s, v))
    case AtElement(kind, s) => SupportedElement(kind, s) && Conforms(s, v)
  }

  lemma FieldConforms(s: Schema, v: Value, st: Step)
    requires Supported(s) && ConformsObject(s, v)
    ensures BelowElement(s, st).Some? && Child(v, st).Some? ==>
      ConformsAt(BelowElement(s, st).value, Child(v, st).value)
  {}

  lemma NestedConforms(mode: NestingMode, kind: ElementKind, s: Schema, v: Value, st: Step)
    requires SupportedElement(kind, s) && (v.Null? || ConformsNesting(mode, s, v))
    ensures BelowNesting(mode, kind, s, st).Some? && Child(v, st).Some? ==>
      ConformsAt(BelowNesting(mode, kind, s, st).value, Child(v, st).value)
  {
    hide ConformsObject, Supported;
    if mode == Single && !v.Null? {
      FieldConforms(s, v, st);
    }
  }

  lemma ChildConforms(pos: Position, v: Value, st: Step)
    requires ConformsAt(pos, v)
    ensures Below(pos, st).Some? && Child(v, st).Some? ==> ConformsAt(Below(pos, st).value, Child(v, st).value)
  {
    hide ConformsObject, Supported, Child;
    match pos
    case AtAttribute(a) =>
      if a.Nested? {
        NestedConforms(a.mode, AttributeElement, a.body, v, st);
      }
    case AtNesting(mode, kind, s) => NestedConforms(mode, kind, s, v, st);
    case AtElement(_, s) =>
      if v.Null? {
        NoChild(st);
      } else {
        FieldConforms(s, v, st);
      }
  }

  lemma NoChild(st: Step)
    ensures Child(Null, st).None?
  {}

  // -------------------------------------------------- the correlated prior value

  /** Whether steps from here go into the slots of a set. */
  function SetBelow(pos: Position): Option<(ElementKind, Schema)> {
    match pos
    case AtAttribute(a) => if a.Nested? && a.mode == SetMode then Some((AttributeElement, a.body)) else None
    case AtNesting(mode, kind, s) => if mode == SetMode then Some((kind, s)) else None
    case AtElement(_, _) => None
  }

  function MembersIn(prior: Option<Value>): seq<Value> {
    if prior.Some? then MembersOf(prior.value) else []
  }

  function ChildIn(prior: Option<Value>, st: Step): Option<Value> {
    if prior.Some? then Child(prior.value, st) else None
  }

  function AtIn(prior: Option<Value>, p: Path): Option<Value> {
    if prior.Some? then At(prior.value, p) else None
  }

  ghost predicate ConformsIn(pos: Position, prior: Option<Value>) {
    prior.Some? ==> ConformsAt(pos, prior.value)
  }

  /** The step to take in the prior value: from the slot of a set to the one chosen for it, else the same. */
  ghost function PriorStep(pos: Position, prior: Option<Value>, config: Value, st: Step): Step
    requires ConformsIn(pos, prior) && ConformsAt(pos, config)
  {
    var set' := SetBelow(pos);
    if set'.None? || !st.Slot? || st.j >= |MembersOf(config)| then st
    else
      SetConforms(pos, config);
      assert prior.Some? ==> AllConform(set'.value.1, MembersIn(prior)) by {
        if prior.Some? { SetConforms(pos, prior.value); }
      }
      var (kind, s, priors) := (set'.value.0, set'.value.1, MembersIn(prior));
      Slot(SetChoices(kind, s, priors, MembersOf(config), Unused(|priors|))[st.j])
  }

  lemma SetConforms(pos: Position, v: Value)
    requires ConformsAt(pos, v) && SetBelow(pos).Some?
    ensures AllConform(SetBelow(pos).value.1, MembersOf(v))
  {
    assert v.Null? || ConformsNesting(SetMode, SetBelow(pos).value.1, v);
  }

  /** Where the prior value of a place in the planned one was taken from. */
  ghost function PriorPath(pos: Position, prior: Option<Value>, config: Value, p: Path): Option<Path>
    requires ConformsIn(pos, prior) && ConformsAt(pos, config)
    decreases |p|
  {
    if p == [] then Some([])
    else if Below(pos, p[0]).None? || Child(config, p[0]).None? then None
    else
      var st := PriorStep(pos, prior, config, p[0]);
      ChildConforms(pos, config, p[0]);
      PriorChildConforms(pos, prior, config, p[0]);
      match PriorPath(Below(pos, p[0]).value, ChildIn(prior, st), Child(config, p[0]).value, p[1..])
      case None => None
      case Some(q) => Some([st] + q)
  }

  lemma PriorChildConforms(pos: Position, prior: Option<Value>, config: Value, st: Step)
    requires ConformsIn(pos, prior) && ConformsAt(pos, config) && Below(pos, st).Some?
    ensures ConformsIn(Below(pos, st).value, ChildIn(prior, PriorStep(pos, prior, config, st)))
  {
    var st' := PriorStep(pos, prior, config, st);
    assert Below(pos, st') == Below(pos, st);
    if prior.Some? {
      ChildConforms(pos, prior.value, st');
    }
  }

  ghost function PriorAt(pos: Position, prior: Option<Value>, config: Value, p: Path): Option<Value>
    requires ConformsIn(pos, prior) && ConformsAt(pos, config)
  {
    match PriorPath(pos, prior, config, p)
    case None => None
    case Some(q) => AtIn(prior, q)
  }

  lemma PriorAtCons(pos: Position, prior: Option<Value>, config: Value, p: Path)
    requires ConformsIn(pos, prior) && ConformsAt(pos, config)
    requires p != [] && Below(pos, p[0]).Some? && Child(config, p[0]).Some?
    ensures var pos', config' := Below(pos, p[0]).value, Child(config, p[0]).value;
      var prior' := ChildIn(prior, PriorStep(pos, prior, config, p[0]));
      && ConformsAt(pos', config') && ConformsIn(pos', prior')
      && PriorAt(pos, prior, config, p) == PriorAt(pos', prior', config', p[1..])
  {
    hide PriorStep, At, Child;
    ChildConforms(pos, config, p[0]);
    PriorChildConforms(pos, prior, config, p[0]);
    var st := PriorStep(pos, prior, config, p[0]);
    var q := PriorPath(Below(pos, p[0]).value, ChildIn(prior, st), Child(config, p[0]).value, p[1..]);
    if q.Some? && prior.Some? {
      AtCons(prior.value, st, q.value);
    }
  }

  // ---------------------------------------------------------------- provenance

  /** At `p[..k]` there is a computed attribute, null in the configuration, whose value is the correlated prior one, or
      the schema's empty value where there is no prior object. */
  ghost predicate Borrowed(pos: Position, prior: Option<Value>, config: Value, out: Value, p: Path, k: nat)
    requires ConformsIn(pos, prior) && ConformsAt(pos, config)
  {
    && k <= |p|
    && AttributeAt(pos, p[..k]).Some?
    && AttributeAt(pos, p[..k]).value.computed
    && At(config, p[..k]) == Some(Null)
    && At(out, p[..k]).Some?
    && !At(out, p[..k]).value.Null?
    && At(out, p[..k]).value ==
         match PriorAt(pos, prior, config, p[..k])
         case Some(v) => v
         case None => EmptyAttribute(AttributeAt(pos, p[..k]).value)
  }

  predicate FromConfig(config: Value, out: Value, p: Path) {
    At(out, p).None? || (At(config, p).Some? && SameHead(At(out, p).value, At(config, p).value))
  }

  ghost predicate Explained(pos: Position, prior: Option<Value>, config: Value, out: Value, p: Path)
    requires ConformsIn(pos, prior) && ConformsAt(pos, config)
  {
    FromConfig(config, out, p) || exists k: nat :: Borrowed(pos, prior, config, out, p, k)
  }

  lemma AtStep(v: Value, p: Path)
    requires p != [] && Child(v, p[0]).Some?
    ensures At(v, p) == At(Child(v, p[0]).value, p[1..])
  {}

  lemma AttributeAtStep(pos: Position, p: Path)
    requires p != [] && Below(pos, p[0]).Some?
    ensures AttributeAt(pos, p) == AttributeAt(Below(pos, p[0]).value, p[1..])
  {}

  /** What a child has borrowed, its parent has borrowed one step further down. */
  lemma LiftBorrowed(pos: Position, prior: Option<Value>, config: Value, out: Value, p: Path, k: nat)
    requires ConformsIn(pos, prior) && ConformsAt(pos, config)
    requires p != [] && Below(pos, p[0]).Some? && Child(config, p[0]).Some? && Child(out, p[0]).Some?
    requires var pos', config' := Below(pos, p[0]).value, Child(config, p[0]).value;
      var prior' := ChildIn(prior, PriorStep(pos, prior, config, p[0]));
      && ConformsAt(pos', config') && ConformsIn(pos', prior')
      && Borrowed(pos', prior', config', Child(out, p[0]).value, p[1..], k)
    ensures Borrowed(pos, prior, config, out, p, k + 1)
  {
    hide PriorAt, PriorStep, Child, EmptyAttribute, Below, ConformsAt, At, AttributeAt, ChildIn;
    var r := p[..k + 1];
    assert r[1..] == p[1..][..k] && r[0] == p[0];
    PriorAtCons(pos, prior, config, r);
    AtStep(config, r);
    AtStep(out, r);
    AttributeAtStep(pos, r);
  }

  lemma LiftExplained(pos: Position, prior: Option<Value>, config: Value, out: Value, p: Path)
    requires ConformsIn(pos, prior) && ConformsAt(pos, config)
    requires p != [] && Below(pos, p[0]).Some? && Child(config, p[0]).Some? && Child(out, p[0]).Some?
    requires var pos', config' := Below(pos, p[0]).value, Child(config, p[0]).value;
      var prior' := ChildIn(prior, PriorStep(pos, prior, config, p[0]));
      && ConformsAt(pos', config') && ConformsIn(pos', prior')
      && Explained(pos', prior', config', Child(out, p[0]).value, p[1..])
    ensures Explained(pos, prior, config, out, p)
  {
    hide PriorAt, PriorStep, Child, EmptyAttribute, SameHead, Below, ConformsAt, At, AttributeAt, Borrowed, ChildIn;
    var pos', config' := Below(pos, p[0]).value, Child(config, p[0]).value;
    var prior' := ChildIn(prior, PriorStep(pos, prior, config, p[0]));
    var out' := Child(out, p[0]).value;
    AtStep(config, p);
    AtStep(out, p);
    if !FromConfig(config', out', p[1..]) {
      var k: nat :| Borrowed(pos', prior', config', out', p[1..], k);
      LiftBorrowed(pos, prior, config, out, p, k);
    }
  }

  /** From two places, the same is below: a single nested object is where its element is, and a nested attribute where
      its elements are. */
  ghost predicate SameBelow(pos: Position, pos': Position) {
    (forall st :: Below(pos, st) == Below(pos', st)) && SetBelow(pos) == SetBelow(pos') && !pos'.AtAttribute?
  }

  lemma MoveExplained(pos: Position, pos': Position, prior: Value, config: Value, out: Value, p: Path)
    requires ConformsAt(pos, prior) && ConformsAt(pos, config) && ConformsAt(pos', prior) && ConformsAt(pos', config)
    requires SameBelow(pos, pos') && Explained(pos', Some(prior), config, out, p)
    ensures Explained(pos, Some(prior), config, out, p)
  {
    hide At, AttributeAt, PriorAt, SameBelow, EmptyAttribute, SameHead, ConformsAt, Borrowed;
    if !FromConfig(config, out, p) {
      var k: nat :| Borrowed(pos', Some(prior), config, out, p, k);
      MoveBorrowed(pos, pos', prior, config, out, p, k);
    }
  }

  lemma MoveBorrowed(pos: Position, pos': Position, prior: Value, config: Value, out: Value, p: Path, k: nat)
    requires ConformsAt(pos, prior) && ConformsAt(pos, config) && ConformsAt(pos', prior) && ConformsAt(pos', config)
    requires SameBelow(pos, pos') && Borrowed(pos', Some(prior), config, out, p, k)
    ensures Borrowed(pos, Some(prior), config, out, p, k)
  {
    hide At, AttributeAt, PriorAt, SameBelow, EmptyAttribute, ConformsAt;
    SamePath(pos, pos', prior, config, p[..k]);
  }

  lemma SamePath(pos: Position, pos': Position, prior: Value, config: Value, p: Path)
    requires ConformsAt(pos, prior) && ConformsAt(pos, config) && ConformsAt(pos', prior) && ConformsAt(pos', config)
    requires SameBelow(pos, pos')
    ensures PriorAt(pos, Some(prior), config, p) == PriorAt(pos', Some(prior), config, p)
    ensures AttributeAt(pos', p).Some? ==> AttributeAt(pos, p) == AttributeAt(pos', p)
  {
    hide Below, SetBelow, Child, ConformsAt, At;
    if p != [] {
      SameStep(pos, pos', prior, config, p[0]);
    }
  }

  lemma SameStep(pos: Position, pos': Position, prior: Value, config: Value, st: Step)
    requires ConformsAt(pos, prior) && ConformsAt(pos, config) && ConformsAt(pos', prior) && ConformsAt(pos', config)
    requires SameBelow(pos, pos')
    ensures PriorStep(pos, Some(prior), config, st) == PriorStep(pos', Some(prior), config, st)
  {
    hide Below, SetBelow, ConformsAt;
  }

  /** What is borrowed from a value that holds nothing is the schema's empty value. */
  lemma ForgetNothing(pos: Position, prior: Value, config: Value, out: Value, p: Path)
    requires ConformsAt(pos, prior) && ConformsAt(pos, config)
    requires forall r: Path {:trigger PriorAt(pos, Some(prior), config, r)} | AttributeAt(pos, r).Some? ::
      PriorAt(pos, Some(prior), config, r) in {None, Some(Null), Some(EmptyAttribute(AttributeAt(pos, r).value))}
    requires Explained(pos, Some(prior), config, out, p)
    ensures Explained(pos, None, config, out, p)
  {
    hide At, AttributeAt, EmptyAttribute, SameHead, PriorPath, ConformsAt;
    if !FromConfig(config, out, p) {
      var k: nat :| Borrowed(pos, Some(prior), config, out, p, k);
      NothingAt(pos, config, p[..k]);
      assert Borrowed(pos, None, config, out, p, k);
    }
  }

  lemma NothingAt(pos: Position, config: Value, p: Path)
    requires ConformsAt(pos, config)
    ensures PriorAt(pos, None, config, p) == None
  {}

  lemma ForgetNull(pos: Position, config: Value, out: Value, p: Path)
    requires ConformsAt(pos, Null) && ConformsAt(pos, config) && Explained(pos, Some(Null), config, out, p)
    ensures Explained(pos, None, config, out, p)
  {
    hide AttributeAt, PriorPath, ConformsAt, Explained;
    forall r: Path
      ensures PriorAt(pos, Some(Null), config, r) in {None, Some(Null)}
    {
      var q := PriorPath(pos, Some(Null), config, r);
      if q.Some? {
        AtNull(q.value);
      }
    }
    ForgetNothing(pos, Null, config, out, p);
  }

  /** An empty attribute is empty all the way down. */
  lemma {:induction false} EmptyBelow(a: Attribute, config: Value, r: Path)
    requires SupportedAttribute(a) && ConformsAttribute(a, config) && AttributeAt(AtAttribute(a), r).Some?
    ensures ConformsAt(AtAttribute(a), EmptyAttribute(a))
    ensures PriorAt(AtAttribute(a), Some(EmptyAttribute(a)), config, r) in
      {None, Some(EmptyAttribute(AttributeAt(AtAttribute(a), r).value))}
    decreases |r|
  {
    hide PriorPath, ConformsAttribute, ConformsObject, Supported, At;
    var pos, empty := AtAttribute(a), EmptyAttribute(a);
    if r == [] {
      AtRoot(pos, Some(empty), config);
    } else if Child(config, r[0]).None? {
      OffConfig(pos, Some(empty), config, r);
    } else {
      PriorAtCons(pos, Some(empty), config, r);
      var pos', config' := Below(pos, r[0]).value, Child(config, r[0]).value;
      if a.mode == Single {
        var n := r[0].name;
        assert pos' == AtAttribute(a.body.attrs[n]);
        assert ChildIn(Some(empty), r[0]) == Some(EmptyAttribute(a.body.attrs[n]));
        EmptyBelow(a.body.attrs[n], config', r[1..]);
      } else {
        NothingAt(pos', config', r[1..]);
      }
    }
  }

  lemma AtRoot(pos: Position, prior: Option<Value>, config: Value)
    requires ConformsIn(pos, prior) && ConformsAt(pos, config)
    ensures PriorAt(pos, prior, config, []) == prior
  {}

  lemma OffConfig(pos: Position, prior: Option<Value>, config: Value, p: Path)
    requires ConformsIn(pos, prior) && ConformsAt(pos, config) && p != [] && Child(config, p[0]).None?
    ensures PriorAt(pos, prior, config, p) == None
  {}

  lemma ForgetEmptyAttribute(a: Attribute, config: Value, out: Value, p: Path)
    requires SupportedAttribute(a) && ConformsAttribute(a, config)
    requires Explained(AtAttribute(a), Some(EmptyAttribute(a)), config, out, p)
    ensures Explained(AtAttribute(a), None, config, out, p)
  {
    hide PriorAt, AttributeAt, EmptyAttribute, Explained;
    forall r: Path | AttributeAt(AtAttribute(a), r).Some?
      ensures PriorAt(AtAttribute(a), Some(EmptyAttribute(a)), config, r) in
        {None, Some(EmptyAttribute(AttributeAt(AtAttribute(a), r).value))}
    {
      EmptyBelow(a, config, r);
    }
    ForgetNothing(AtAttribute(a), EmptyAttribute(a), config, out, p);
  }

  lemma ForgetEmptyBlock(b: Block, config: Value, out: Value, p: Path)
    requires SupportedBlock(b) && ConformsBlock(b, config)
    requires Explained(AtNesting(b.mode, BlockElement, b.body), Some(EmptyBlock(b)), config, out, p)
    ensures Explained(AtNesting(b.mode, BlockElement, b.body), None, config, out, p)
  {
    hide PriorAt, Explained, ConformsObject, Supported;
    var pos := AtNesting(b.mode, BlockElement, b.body);
    forall r: Path | AttributeAt(pos, r).Some?
      ensures PriorAt(pos, Some(EmptyBlock(b)), config, r) in {None, Some(Null)}
    {
      EmptyBlockBelow(b, config, r);
    }
    ForgetNothing(pos, EmptyBlock(b), config, out, p);
  }

  lemma EmptyBlockBelow(b: Block, config: Value, r: Path)
    requires SupportedBlock(b) && ConformsBlock(b, config) && r != []
    ensures var pos := AtNesting(b.mode, BlockElement, b.body);
      ConformsAt(pos, EmptyBlock(b)) && ConformsAt(pos, config) && PriorAt(pos, Some(EmptyBlock(b)), config, r) == None
  {
    hide ConformsObject, Supported;
    var q := PriorPath(AtNesting(b.mode, BlockElement, b.body), Some(EmptyBlock(b)), config, r);
  }

  // ------------------------------------------------------------- along the merge

  lemma {:induction false} AttributeExplained(a: Attribute, prior: Value, config: Value, p: Path)
    requires SupportedAttribute(a) && ConformsAttribute(a, prior) && ConformsAttribute(a, config)
    ensures Explained(AtAttribute(a), Some(prior), config, ProposedAttribute(a, prior, config), p)
    decreases a, 0
  {
    hide PriorAt, SameHead;
    var out, pos := ProposedAttribute(a, prior, config), AtAttribute(a);
    if a.computed && config.Null? {
      if !out.Null? {
        assert p[..0] == [];
        AtRoot(pos, Some(prior), config);
        assert Borrowed(pos, Some(prior), config, out, p, 0);
      } else {
        SameExplained(pos, prior, config, p);
      }
    } else if a.Nested? && !config.Null? {
      NestingExplained(a.mode, AttributeElement, a.body, prior, config, p);
      MoveExplained(pos, AtNesting(a.mode, AttributeElement, a.body), prior, config, out, p);
    } else {
      SameExplained(pos, prior, config, p);
    }
  }

  lemma SameExplained(pos: Position, prior: Value, config: Value, p: Path)
    requires ConformsAt(pos, prior) && ConformsAt(pos, config)
    ensures Explained(pos, Some(prior), config, config, p)
  {
    assert FromConfig(config, config, p);
  }

  lemma {:induction false} BlockExplained(b: Block, prior: Value, config: Value, p: Path)
    requires SupportedBlock(b) && ConformsBlock(b, prior) && ConformsBlock(b, config)
    ensures Explained(AtNesting(b.mode, BlockElement, b.body), Some(prior), config, ProposedBlock(b, prior, config), p)
    decreases b, 0
  {
    hide Explained, ConformsObject;
    if config.Null? {
      SameExplained(AtNesting(b.mode, BlockElement, b.body), prior, config, p);
    } else {
      NestingExplained(b.mode, BlockElement, b.body, prior, config, p);
    }
  }

  /** What is taken over as it stands is the configuration's. */
  lemma VerbatimExplained(pos: Position, prior: Value, config: Value, out: Value, p: Path)
    requires ConformsAt(pos, prior) && ConformsAt(pos, config) && p != [] && Child(out, p[0]) == Child(config, p[0])
    ensures Explained(pos, Some(prior), config, out, p)
  {
    assert FromConfig(config, out, p);
  }

  lemma NowhereExplained(pos: Position, prior: Value, config: Value, out: Value, p: Path)
    requires ConformsAt(pos, prior) && ConformsAt(pos, config)
    requires (p == [] && SameHead(out, config)) || At(out, p).None?
    ensures Explained(pos, Some(prior), config, out, p)
  {
    assert FromConfig(config, out, p);
  }

  lemma {:induction false} NestingExplained(
      mode: NestingMode, kind: ElementKind, s: Schema, prior: Value, config: Value, p: Path)
    requires SupportedElement(kind, s)
    requires (prior.Null? || ConformsNesting(mode, s, prior)) && ConformsNesting(mode, s, config)
    ensures Explained(AtNesting(mode, kind, s), Some(prior), config, ProposedNesting(mode, kind, s, prior, config), p)
    decreases s, 2
  {
    hide Explained, ConformsObject, ValidPriorFromConfig, Supported, ProposedElement, ListElements, SetElements,
      SetChoices, At;
    var out, pos := ProposedNesting(mode, kind, s, prior, config), AtNesting(mode, kind, s);
    if mode == Single {
      ElementExplained(kind, s, prior, config, p);
      MoveExplained(pos, AtElement(kind, s), prior, config, out, p);
    } else if p == [] || Child(out, p[0]).None? {
      NoneBelow(out, p);
      NowhereExplained(pos, prior, config, out, p);
    } else {
      match p[0]
      case Index(i) => ElemExplained(kind, s, prior, config, p);
      case Slot(j) => MemberExplained(kind, s, prior, config, p);
      case Key(k) => EntryExplained(kind, s, prior, config, p);
      case Field(_) =>
    }
  }

  lemma NoneBelow(v: Value, p: Path)
    ensures p != [] && Child(v, p[0]).None? ==> At(v, p).None?
  {}

  lemma {:induction false} ElemExplained(kind: ElementKind, s: Schema, prior: Value, config: Value, p: Path)
    requires SupportedElement(kind, s)
    requires (prior.Null? || ConformsNesting(ListMode, s, prior)) && ConformsNesting(ListMode, s, config)
    requires p != [] && p[0].Index? && p[0].i < |config.elems|
    ensures Explained(AtNesting(ListMode, kind, s), Some(prior), config,
                      ListV(ListElements(kind, s, ElemsOf(prior), config.elems)), p)
    decreases s, 2, 0
  {
    hide Explained, ConformsObject, Supported, ProposedElement, ListElements;
    var i, priors, pos := p[0].i, ElemsOf(prior), AtNesting(ListMode, kind, s);
    var out := ListV(ListElements(kind, s, priors, config.elems));
    ListElementsAt(kind, s, priors, config.elems, i);
    if i < |priors| {
      ElementExplained(kind, s, priors[i], config.elems[i], p[1..]);
      LiftExplained(pos, Some(prior), config, out, p);
    } else {
      VerbatimExplained(pos, prior, config, out, p);
    }
  }

  lemma {:induction false} MemberExplained(kind: ElementKind, s: Schema, prior: Value, config: Value, p: Path)
    requires SupportedElement(kind, s)
    requires (prior.Null? || ConformsNesting(SetMode, s, prior)) && ConformsNesting(SetMode, s, config)
    requires p != [] && p[0].Slot? && p[0].j < |config.members|
    ensures Explained(AtNesting(SetMode, kind, s), Some(prior), config,
                      SetV(SetElements(kind, s, MembersOf(prior), config.members, Unused(|MembersOf(prior)|))), p)
    decreases s, 2, 0
  {
    hide Explained, ConformsObject, Supported, ProposedElement, SetElements, SetChoices, ValidPriorFromConfig;
    var j, priors, pos := p[0].j, MembersOf(prior), AtNesting(SetMode, kind, s);
    var out := SetV(SetElements(kind, s, priors, config.members, Unused(|priors|)));
    ElementsFollowChoices(kind, s, priors, config.members, Unused(|priors|), j);
    var m := SetChoices(kind, s, priors, config.members, Unused(|priors|))[j];
    assert PriorStep(pos, Some(prior), config, p[0]) == Slot(m);
    if m < |priors| {
      ElementExplained(kind, s, priors[m], config.members[j], p[1..]);
    } else {
      ElementExplained(kind, s, Null, config.members[j], p[1..]);
      ForgetNull(AtElement(kind, s), config.members[j], out.members[j], p[1..]);
    }
    LiftExplained(pos, Some(prior), config, out, p);
  }

  lemma {:induction false} EntryExplained(kind: ElementKind, s: Schema, prior: Value, config: Value, p: Path)
    requires SupportedElement(kind, s)
    requires (prior.Null? || ConformsNesting(MapMode, s, prior)) && ConformsNesting(MapMode, s, config)
    requires p != [] && p[0].Key? && p[0].key in config.entries
    ensures Explained(AtNesting(MapMode, kind, s), Some(prior), config,
                      MapV(MapElements(kind, s, EntriesOf(prior), config.entries)), p)
    decreases s, 2, 0
  {
    hide Explained, ConformsObject, Supported, ProposedElement;
    var k, priors, pos := p[0].key, EntriesOf(prior), AtNesting(MapMode, kind, s);
    var out := MapV(MapElements(kind, s, priors, config.entries));
    if k in priors {
      ElementExplained(kind, s, priors[k], config.entries[k], p[1..]);
      LiftExplained(pos, Some(prior), config, out, p);
    } else {
      VerbatimExplained(pos, prior, config, out, p);
    }
  }

  lemma {:induction false} ElementExplained(kind: ElementKind, s: Schema, prior: Value, config: Value, p: Path)
    requires SupportedElement(kind, s)
    requires Conforms(s, prior) && ConformsObject(s, config)
    ensures Explained(AtElement(kind, s), Some(prior), config, ProposedElement(kind, s, prior, config), p)
    decreases s, 1
  {
    hide Explained, ProposedElement, ProposedAttribute, ProposedBlock, ConformsBlock, At, SupportedAttribute,
      SupportedBlock, EmptyAttribute, EmptyBlock;
    var out, pos := ProposedElement(kind, s, prior, config), AtElement(kind, s);
    var from := PriorObject(kind, s, prior);
    ElementFields(kind, s, prior, config);
    if p == [] || Child(out, p[0]).None? {
      NoneBelow(out, p);
      NowhereExplained(pos, prior, config, out, p);
    } else {
      var n := p[0].name;
      assert PriorStep(pos, Some(prior), config, p[0]) == p[0];
      if n in s.attrs {
        FieldExplained(kind, s.attrs[n], prior, PriorField(from, n), n, config.fields[n], p[1..]);
      } else {
        BlockFieldExplained(s.blocks[n], prior, from.fields[n], n, config.fields[n], p[1..]);
      }
      LiftExplained(pos, Some(prior), config, out, p);
    }
  }

  /** A field of a prior object, or of what stands in for a null one. */
  lemma {:induction false} FieldExplained(
      kind: ElementKind, a: Attribute, object': Value, prior: Value, n: string, config: Value, p: Path)
    requires SupportedAttribute(a) && ConformsAttribute(a, prior) && ConformsAttribute(a, config)
    requires if object'.Null? then prior == (if kind.BlockElement? then EmptyAttribute(a) else Null)
             else object'.Obj? && n in object'.fields && object'.fields[n] == prior
    ensures ConformsIn(AtAttribute(a), ChildIn(Some(object'), Field(n)))
    ensures Explained(AtAttribute(a), ChildIn(Some(object'), Field(n)), config, ProposedAttribute(a, prior, config), p)
    decreases a, 1
  {
    hide Explained, ProposedAttribute, ConformsAttribute, EmptyAttribute, SupportedAttribute;
    AttributeExplained(a, prior, config, p);
    if object'.Null? {
      if kind.BlockElement? {
        ForgetEmptyAttribute(a, config, ProposedAttribute(a, prior, config), p);
      } else {
        ForgetNull(AtAttribute(a), config, ProposedAttribute(a, prior, config), p);
      }
    }
  }

  lemma {:induction false} BlockFieldExplained(b: Block, object': Value, prior: Value, n: string, config: Value,
                                               p: Path)
    requires SupportedBlock(b) && ConformsBlock(b, prior) && ConformsBlock(b, config)
    requires if object'.Null? then prior == EmptyBlock(b)
             else object'.Obj? && n in object'.fields && object'.fields[n] == prior
    ensures var pos := AtNesting(b.mode, BlockElement, b.body);
      && ConformsIn(pos, ChildIn(Some(object'), Field(n))) && ConformsAt(pos, config)
      && Explained(pos, ChildIn(Some(object'), Field(n)), config, ProposedBlock(b, prior, config), p)
    decreases b, 1
  {
    hide Explained, ProposedBlock, EmptyBlock;
    BlockExplained(b, prior, config, p);
    if object'.Null? {
      ForgetEmptyBlock(b, config, ProposedBlock(b, prior, config), p);
    }
  }

  /** Provenance: whatever the proposed state of a non-null configuration holds at any path and the configuration does
      not, lies under an attribute that is computed and null in the configuration. There it is the value that the prior
      state has at the same path, with each slot of a set replaced by the one chosen for it; and only where the prior
      state has no object on the way, the schema's empty value. For a null configuration the prior state is proposed. */
  lemma Provenance(s: Schema, prior: Value, config: Value, p: Path)
    requires Supported(s) && Conforms(s, prior) && Conforms(s, config)
    ensures var planned := ProposedNew(s, prior, config);
            if config.Null? then planned == prior
            else Explained(AtElement(BlockElement, s), Some(prior), config, planned, p)
  {
    if !config.Null? {
      ElementExplained(BlockElement, s, prior, config, p);
    }
  }
}
