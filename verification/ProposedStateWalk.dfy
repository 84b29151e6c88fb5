/** The walk of validPriorFromConfig (`pkg/controller/proposed_state.go`) over an element of a set block. It visits the
    fields of an object, and the entries of a map, in any order, and ends at the first that rejects the prior element;
    or at a type assertion that fails, where it finds an element of a list or map that differs. */
module ProposedStateWalk {
  import opened ProposedState

  datatype Outcome = Accepts | Rejects | Fails

  // ------------------------------------------------------------- loops in any order

  ghost predicate Arranges(order: seq<string>, keys: set<string>) {
    (forall k :: k in order <==> k in keys) && forall i, j | 0 <= i < j < |order| :: order[i] != order[j]
  }

  /** Whether a loop that goes on while its steps accept can end this way. */
  ghost predicate InOrder(steps: map<string, set<Outcome>>, order: seq<string>, o: Outcome)
    requires forall k <- order :: k in steps
  {
    if order == [] then o == Accepts
    else (Accepts in steps[order[0]] && InOrder(steps, order[1..], o)) || (o != Accepts && o in steps[order[0]])
  }

  ghost predicate InSomeOrder(steps: map<string, set<Outcome>>, o: Outcome) {
    exists order | Arranges(order, steps.Keys) :: InOrder(steps, order, o)
  }

  lemma {:induction false} InOrderIff(steps: map<string, set<Outcome>>, order: seq<string>, o: Outcome)
    requires forall k <- order :: k in steps
    ensures InOrder(steps, order, Accepts) <==> forall k <- order :: Accepts in steps[k]
    ensures o != Accepts && InOrder(steps, order, o) ==> exists k <- order :: o in steps[k]
  {
    if order != [] {
      InOrderIff(steps, order[1..], o);
      assert forall k :: k in order <==> k == order[0] || k in order[1..];
    }
  }

  lemma {:induction false} SomeArrangement(keys: set<string>) returns (order: seq<string>)
    ensures Arranges(order, keys)
    decreases |keys|
  {
    if keys == {} {
      order := [];
    } else {
      var k :| k in keys;
      var rest := SomeArrangement(keys - {k});
      order := [k] + rest;
    }
  }

  lemma FirstInOrder(steps: map<string, set<Outcome>>, k: string, o: Outcome)
    requires k in steps && o in steps[k] && o != Accepts
    ensures InSomeOrder(steps, o)
  {
    var rest := SomeArrangement(steps.Keys - {k});
    assert Arranges([k] + rest, steps.Keys);
    assert InOrder(steps, [k] + rest, o);
  }

  /** A loop accepts in some order exactly if every step can, and ends otherwise exactly as some step can. */
  lemma InSomeOrderIff(steps: map<string, set<Outcome>>, o: Outcome)
    ensures InSomeOrder(steps, Accepts) <==> forall k <- steps :: Accepts in steps[k]
    ensures o != Accepts ==> (InSomeOrder(steps, o) <==> exists k <- steps :: o in steps[k])
  {
    var all := SomeArrangement(steps.Keys);
    InOrderIff(steps, all, Accepts);
    if InSomeOrder(steps, Accepts) {
      var order :| Arranges(order, steps.Keys) && InOrder(steps, order, Accepts);
      InOrderIff(steps, order, Accepts);
    }
    if o != Accepts {
      if InSomeOrder(steps, o) {
        var order :| Arranges(order, steps.Keys) && InOrder(steps, order, o);
        InOrderIff(steps, order, o);
      }
      if k :| k in steps && o in steps[k] {
        FirstInOrder(steps, k, o);
      }
    }
  }

  ghost function Loop(steps: map<string, set<Outcome>>): (os: set<Outcome>)
    ensures forall o :: o in os <==> InSomeOrder(steps, o)
  {
    set o: Outcome | InSomeOrder(steps, o)
  }

  // -------------------------------------------------------------------- the walk

  /** How the walk can end at an element: at once if it is equal, else after its fields. */
  ghost function WalkObject(s: Schema, prior: Value, config: Value): set<Outcome>
    requires ConformsObject(s, prior) && ConformsObject(s, config)
    decreases s, 2
  {
    if config == prior then {Accepts} else WalkFields(s, prior, config)
  }

  ghost function WalkFields(s: Schema, prior: Value, config: Value): set<Outcome>
    requires ConformsObject(s, prior) && Conforms(s, config)
    decreases s, 1
  {
    Loop(FieldSteps(s, prior, config))
  }

  /** No path of a null object exists. */
  ghost function FieldSteps(s: Schema, prior: Value, config: Value): (steps: map<string, set<Outcome>>)
    requires ConformsObject(s, prior) && Conforms(s, config)
    ensures steps.Keys == s.attrs.Keys + s.blocks.Keys
    decreases s, 0
  {
    map n | n in s.attrs.Keys + s.blocks.Keys ::
      if config.Null? then {Rejects}
      else if n in s.attrs then WalkAttribute(s.attrs[n], prior.fields[n], config.fields[n])
      else WalkBlock(s.blocks[n], prior.fields[n], config.fields[n])
  }

  ghost function WalkAttribute(a: Attribute, prior: Value, config: Value): set<Outcome>
    requires ConformsAttribute(a, prior) && ConformsAttribute(a, config)
    decreases a
  {
    if config == prior then {Accepts}
    else if prior.SetV? || config.SetV? then {Rejects}
    else if a.Leaf? then {if a.computed && config.Null? then Accepts else Rejects}
    else WalkNesting(a.mode, a.body, prior, config)
  }

  ghost function WalkBlock(b: Block, prior: Value, config: Value): set<Outcome>
    requires ConformsBlock(b, prior) && ConformsBlock(b, config)
    decreases b
  {
    if config == prior then {Accepts}
    else if prior.SetV? || config.SetV? then {Rejects}
    else WalkNesting(b.mode, b.body, prior, config)
  }

  ghost function WalkNesting(mode: NestingMode, s: Schema, prior: Value, config: Value): set<Outcome>
    requires prior.Null? || ConformsNesting(mode, s, prior)
    requires config.Null? || ConformsNesting(mode, s, config)
    decreases s, 3
  {
    if prior.Null? then {Accepts}
    else
      match mode
      case Single => WalkFields(s, prior, config)
      case ListMode => {WalkElems(prior.elems, ElemsOf(config))}
      case MapMode => Loop(EntrySteps(prior.entries, EntriesOf(config)))
      case SetMode => {Rejects}
  }

  /** Elements of a list are visited by index. */
  function WalkElems(priors: seq<Value>, configs: seq<Value>): Outcome {
    if priors == [] then Accepts
    else if configs == [] then Rejects
    else if priors[0] == configs[0] then WalkElems(priors[1..], configs[1..])
    else Fails
  }

  ghost function EntrySteps(priors: map<string, Value>, configs: map<string, Value>): map<string, set<Outcome>> {
    map k | k in priors :: {WalkEntry(k, priors, configs)}
  }

  function WalkEntry(k: string, priors: map<string, Value>, configs: map<string, Value>): Outcome
    requires k in priors
  {
    if k !in configs then Rejects else if priors[k] == configs[k] then Accepts else Fails
  }

  // ----------------------------------------------- when an assertion can be reached

  /** Some fields lead to an element of a list or map that is in both and differs. */
  ghost predicate Reaches(s: Schema, prior: Value, config: Value)
    requires ConformsObject(s, prior) && ConformsObject(s, config)
    decreases s, 0
  {
    || (exists n <- s.attrs :: ReachesAttribute(s.attrs[n], prior.fields[n], config.fields[n]))
    || (exists n <- s.blocks :: ReachesBlock(s.blocks[n], prior.fields[n], config.fields[n]))
  }

  ghost predicate ReachesAttribute(a: Attribute, prior: Value, config: Value)
    requires ConformsAttribute(a, prior) && ConformsAttribute(a, config)
    decreases a
  {
    a.Nested? && ReachesNesting(a.mode, a.body, prior, config)
  }

  ghost predicate ReachesBlock(b: Block, prior: Value, config: Value)
    requires ConformsBlock(b, prior) && ConformsBlock(b, config)
    decreases b
  {
    ReachesNesting(b.mode, b.body, prior, config)
  }

  ghost predicate ReachesNesting(mode: NestingMode, s: Schema, prior: Value, config: Value)
    requires (prior.Null? || ConformsNesting(mode, s, prior)) && (config.Null? || ConformsNesting(mode, s, config))
    decreases s, 1
  {
    !prior.Null? && !config.Null? &&
    match mode
    case Single => Reaches(s, prior, config)
    case ListMode => SomeDiffers(prior.elems, config.elems)
    case MapMode => exists k :: k in prior.entries && k in config.entries && prior.entries[k] != config.entries[k]
    case SetMode => false
  }

  lemma {:induction false} NeverReachesItself(s: Schema, v: Value)
    requires ConformsObject(s, v)
    ensures !Reaches(s, v, v)
    decreases s, 0
  {
    hide ConformsAttribute, ConformsBlock, ReachesNesting, ConformsNesting;
    forall n <- s.attrs
      ensures !ReachesAttribute(s.attrs[n], v.fields[n], v.fields[n])
    {
      AttributeNeverReaches(s.attrs[n], v.fields[n]);
    }
    forall n <- s.blocks
      ensures !ReachesBlock(s.blocks[n], v.fields[n], v.fields[n])
    {
      BlockNeverReaches(s.blocks[n], v.fields[n]);
    }
  }

  lemma {:induction false} AttributeNeverReaches(a: Attribute, v: Value)
    requires ConformsAttribute(a, v)
    ensures !ReachesAttribute(a, v, v)
    decreases a
  {
    if a.Nested? && !v.Null? && a.mode == Single {
      NeverReachesItself(a.body, v);
    }
  }

  lemma {:induction false} BlockNeverReaches(b: Block, v: Value)
    requires ConformsBlock(b, v)
    ensures !ReachesBlock(b, v, v)
    decreases b
  {
    if !v.Null? && b.mode == Single {
      NeverReachesItself(b.body, v);
    }
  }

  // ------------------------------------------------------------- how the walk ends

  /** One that accepts does so in every order; another may reject or fail, as the order has it. */
  ghost predicate Ends(os: set<Outcome>, fits: bool, reaches: bool) {
    && os != {}
    && (Accepts in os <==> fits) && (fits ==> os == {Accepts})
    && (Fails in os <==> reaches)
  }

  lemma LoopEnds(steps: map<string, set<Outcome>>)
    requires forall k <- steps :: steps[k] != {} && (Accepts in steps[k] ==> steps[k] == {Accepts})
    ensures Ends(Loop(steps), forall k <- steps :: Accepts in steps[k], exists k <- steps :: Fails in steps[k])
  {
    hide InSomeOrder;
    forall o: Outcome {
      InSomeOrderIff(steps, o);
    }
    var os := Loop(steps);
    if k :| k in steps && Accepts !in steps[k] {
      var o :| o in steps[k];
      assert o in os;
    } else {
      assert Accepts in os;
      assert forall o <- os :: o == Accepts;
    }
  }

  lemma {:induction false} ObjectEnds(s: Schema, prior: Value, config: Value)
    requires Supported(s) && ConformsObject(s, prior) && ConformsObject(s, config)
    ensures Ends(WalkObject(s, prior, config), FitsObject(s, prior, config), Reaches(s, prior, config))
    decreases s, 2
  {
    hide WalkFields, FitsFields, Reaches, Supported;
    if config == prior {
      NeverReachesItself(s, prior);
    } else {
      FieldsEnd(s, prior, config);
    }
  }

  lemma {:induction false} FieldsEnd(s: Schema, prior: Value, config: Value)
    requires Supported(s) && ConformsObject(s, prior) && Conforms(s, config)
    ensures Ends(WalkFields(s, prior, config), FitsFields(s, prior, config), config.Obj? && Reaches(s, prior, config))
    decreases s, 1
  {
    hide WalkAttribute, WalkBlock, FitsAttribute, FitsBlock, ReachesAttribute, ReachesBlock, ConformsAttribute,
      ConformsBlock, SupportedAttribute, SupportedBlock, Loop;
    if config.Null? {
      LoopEnds(FieldSteps(s, prior, config));
    } else {
      forall n <- s.attrs {
        AttributeEnds(s.attrs[n], prior.fields[n], config.fields[n]);
      }
      forall n <- s.blocks {
        BlockEnds(s.blocks[n], prior.fields[n], config.fields[n]);
      }
      StepsEnd(s, prior, config);
    }
  }

  /** The loop over the fields, once it is known how each of them ends. */
  lemma StepsEnd(s: Schema, prior: Value, config: Value)
    requires Supported(s) && ConformsObject(s, prior) && ConformsObject(s, config)
    requires forall n <- s.attrs ::
      Ends(WalkAttribute(s.attrs[n], prior.fields[n], config.fields[n]),
           FitsAttribute(s.attrs[n], prior.fields[n], config.fields[n]),
           ReachesAttribute(s.attrs[n], prior.fields[n], config.fields[n]))
    requires forall n <- s.blocks ::
      Ends(WalkBlock(s.blocks[n], prior.fields[n], config.fields[n]),
           FitsBlock(s.blocks[n], prior.fields[n], config.fields[n]),
           ReachesBlock(s.blocks[n], prior.fields[n], config.fields[n]))
    ensures Ends(WalkFields(s, prior, config), FitsFields(s, prior, config), Reaches(s, prior, config))
  {
    hide WalkAttribute, WalkBlock, FitsAttribute, FitsBlock, ReachesAttribute, ReachesBlock, ConformsAttribute,
      ConformsBlock, SupportedAttribute, SupportedBlock, Loop, FieldSteps;
    StepsTaken(s, prior, config);
    var steps := FieldSteps(s, prior, config);
    LoopEnds(steps);
  }

  lemma StepsTaken(s: Schema, prior: Value, config: Value)
    requires Supported(s) && ConformsObject(s, prior) && ConformsObject(s, config)
    ensures var steps := FieldSteps(s, prior, config);
      && (forall n <- steps :: n in s.attrs || n in s.blocks)
      && (forall n <- s.attrs :: n in steps && steps[n] == WalkAttribute(s.attrs[n], prior.fields[n], config.fields[n]))
      && (forall n <- s.blocks :: n in steps && steps[n] == WalkBlock(s.blocks[n], prior.fields[n], config.fields[n]))
  {
    hide WalkAttribute, WalkBlock, ConformsAttribute, ConformsBlock, SupportedAttribute, SupportedBlock;
  }

  lemma {:induction false} AttributeEnds(a: Attribute, prior: Value, config: Value)
    requires SupportedAttribute(a) && ConformsAttribute(a, prior) && ConformsAttribute(a, config)
    ensures Ends(WalkAttribute(a, prior, config), FitsAttribute(a, prior, config), ReachesAttribute(a, prior, config))
    decreases a
  {
    hide WalkNesting, FitsNesting;
    if config == prior {
      AttributeNeverReaches(a, prior);
    } else if a.Nested? {
      NestingEnds(a.mode, a.body, prior, config);
      SetsDoNotFit(a.mode, a.body, prior, config);
    }
  }

  lemma {:induction false} BlockEnds(b: Block, prior: Value, config: Value)
    requires SupportedBlock(b) && ConformsBlock(b, prior) && ConformsBlock(b, config)
    ensures Ends(WalkBlock(b, prior, config), FitsBlock(b, prior, config), ReachesBlock(b, prior, config))
    decreases b
  {
    hide WalkNesting, FitsNesting;
    if config == prior {
      BlockNeverReaches(b, prior);
    } else {
      NestingEnds(b.mode, b.body, prior, config);
      SetsDoNotFit(b.mode, b.body, prior, config);
    }
  }

  lemma SetsDoNotFit(mode: NestingMode, s: Schema, prior: Value, config: Value)
    requires (prior.Null? || ConformsNesting(mode, s, prior)) && (config.Null? || ConformsNesting(mode, s, config))
    requires prior != config
    ensures (prior.SetV? || config.SetV?) <==> mode == SetMode
    ensures mode == SetMode ==> !FitsNesting(mode, s, prior, config) && !ReachesNesting(mode, s, prior, config)
  {}

  lemma {:induction false} NestingEnds(mode: NestingMode, s: Schema, prior: Value, config: Value)
    requires Supported(s) && prior != config
    requires (prior.Null? || ConformsNesting(mode, s, prior)) && (config.Null? || ConformsNesting(mode, s, config))
    ensures mode != SetMode ==>
      Ends(WalkNesting(mode, s, prior, config), FitsNesting(mode, s, prior, config),
           ReachesNesting(mode, s, prior, config))
    decreases s, 3
  {
    hide Supported, ConformsAttribute, ConformsBlock, WalkFields, FitsFields, Reaches, Loop, EntrySteps, WalkElems;
    if !prior.Null? {
      match mode
      case Single => FieldsEnd(s, prior, config);
      case ListMode => ElemsEnd(prior.elems, ElemsOf(config));
      case MapMode => EntriesEnd(prior.entries, EntriesOf(config));
      case SetMode =>
    }
  }

  lemma EntriesEnd(priors: map<string, Value>, configs: map<string, Value>)
    ensures Ends(Loop(EntrySteps(priors, configs)),
                 forall k <- priors :: k in configs && priors[k] == configs[k],
                 exists k :: k in priors && k in configs && priors[k] != configs[k])
  {
    hide Loop;
    var steps := EntrySteps(priors, configs);
    LoopEnds(steps);
    assert forall k <- priors :: Accepts in steps[k] <==> k in configs && priors[k] == configs[k];
    assert forall k <- priors :: Fails in steps[k] <==> k in configs && priors[k] != configs[k];
  }

  ghost predicate SomeDiffers(priors: seq<Value>, configs: seq<Value>) {
    exists i :: 0 <= i < |priors| && i < |configs| && priors[i] != configs[i]
  }

  lemma FirstElems(priors: seq<Value>, configs: seq<Value>)
    requires priors != [] && configs != [] && priors[0] == configs[0]
    ensures priors <= configs <==> priors[1..] <= configs[1..]
    ensures SomeDiffers(priors, configs) <==> SomeDiffers(priors[1..], configs[1..])
  {
    var ps, cs := priors[1..], configs[1..];
    assert priors == [priors[0]] + ps && configs == [priors[0]] + cs;
    if ps <= cs {
      assert configs == priors + cs[|ps|..];
    }
    if priors <= configs {
      assert cs == ps + configs[|priors|..];
    }
    if i :| 0 <= i < |priors| && i < |configs| && priors[i] != configs[i] {
      assert ps[i - 1] != cs[i - 1];
    }
    if i :| 0 <= i < |ps| && i < |cs| && ps[i] != cs[i] {
      assert priors[i + 1] != configs[i + 1];
    }
  }

  lemma {:induction false} ElemsEnd(priors: seq<Value>, configs: seq<Value>)
    ensures WalkElems(priors, configs).Accepts? <==> priors <= configs
    ensures WalkElems(priors, configs).Fails? <==> SomeDiffers(priors, configs)
  {
    if priors != [] && configs != [] && priors[0] == configs[0] {
      ElemsEnd(priors[1..], configs[1..]);
      FirstElems(priors, configs);
    }
  }

  function Item(id: Value): Value {
    Obj(map["id" := id])
  }

  function ItemSchema(): Schema {
    Schema(map["id" := Leaf(true, true)], map[])
  }

  lemma ItemsConform(id: Value)
    requires !id.SetV?
    ensures Supported(ItemSchema()) && ItemSchema().blocks == map[] && ConformsObject(ItemSchema(), Item(id))
  {}

  lemma ItemsDiffer()
    ensures Item(Atom(1)) != Item(Null)
  {
    assert Item(Atom(1)).fields["id"] != Item(Null).fields["id"];
  }

  /** An element with a list of items, whose identity is computed: compared with what was made of it, the walk fails in
      every order. */
  lemma ListItemFails()
    ensures var s := Schema(map["item" := Nested(false, true, ListMode, ItemSchema())], map[]);
      var prior, config := Obj(map["item" := ListV([Item(Atom(1))])]), Obj(map["item" := ListV([Item(Null)])]);
      && Supported(s) && ConformsObject(s, prior) && ConformsObject(s, config)
      && WalkObject(s, prior, config) == {Fails}
  {
    hide Item, ItemSchema, WalkObject;
    var s := Schema(map["item" := Nested(false, true, ListMode, ItemSchema())], map[]);
    var prior, config := Obj(map["item" := ListV([Item(Atom(1))])]), Obj(map["item" := ListV([Item(Null)])]);
    ItemsConform(Atom(1));
    ItemsConform(Null);
    ItemsDiffer();
    assert s.attrs.Keys == {"item"};
    assert prior.fields["item"].elems[0] != config.fields["item"].elems[0];
    OnlyStep(s, prior, config);
  }

  lemma OnlyStep(s: Schema, prior: Value, config: Value)
    requires s.blocks == map[] && s.attrs.Keys == {"item"} && ConformsObject(s, prior) && ConformsObject(s, config)
    requires WalkAttribute(s.attrs["item"], prior.fields["item"], config.fields["item"]) == {Fails} && prior != config
    ensures WalkObject(s, prior, config) == {Fails}
  {
    hide WalkAttribute, InSomeOrder, ConformsAttribute;
    var steps := FieldSteps(s, prior, config);
    assert steps.Keys == {"item"};
    assert steps["item"] == {Fails};
    forall o: Outcome {
      InSomeOrderIff(steps, o);
    }
    var os := Loop(steps);
    assert Fails in os && Accepts !in os && Rejects !in os;
    assert forall o <- os :: o == Fails;
  }

  // --------------------------------------------------------------- the walk in place

  method Visit(kind: ElementKind, s: Schema, prior: Value, config: Value) returns (o: Outcome)
    requires Supported(s) && ConformsObject(s, prior) && ConformsObject(s, config)
    ensures kind == BlockElement ==> o in WalkObject(s, prior, config)
    ensures o.Accepts? <==> ValidPriorFromConfig(kind, s, prior, config)
    ensures o.Fails? ==> kind == BlockElement && Reaches(s, prior, config)
  {
    hide WalkFields, FitsFields, Reaches, Supported;
    if config == prior {
      NeverReachesItself(s, prior);
      return Accepts;
    }
    if kind == AttributeElement {
      return if FitsShape(prior, config) then Accepts else Rejects;
    }
    ObjectEnds(s, prior, config);
    o := VisitFields(s, prior, config);
  }

  method VisitFields(s: Schema, prior: Value, config: Value) returns (o: Outcome)
    requires Supported(s) && ConformsObject(s, prior) && Conforms(s, config)
    ensures o in WalkFields(s, prior, config)
    decreases s, 1
  {
    hide WalkAttribute, WalkBlock, ConformsAttribute, ConformsBlock, InSomeOrder, SupportedAttribute, SupportedBlock;
    ghost var steps := FieldSteps(s, prior, config);
    InSomeOrderIff(steps, Rejects);
    InSomeOrderIff(steps, Fails);
    var todo := s.attrs.Keys + s.blocks.Keys;
    while todo != {}
      invariant todo <= steps.Keys
      invariant forall n | n in steps && n !in todo :: Accepts in steps[n]
    {
      var n :| n in todo;
      todo := todo - {n};
      if config.Null? {
        return Rejects;
      }
      if n in s.attrs {
        o := VisitAttribute(s.attrs[n], prior.fields[n], config.fields[n]);
      } else {
        o := VisitBlock(s.blocks[n], prior.fields[n], config.fields[n]);
      }
      assert o in steps[n];
      if o != Accepts {
        return o;
      }
    }
    return Accepts;
  }

  method VisitAttribute(a: Attribute, prior: Value, config: Value) returns (o: Outcome)
    requires SupportedAttribute(a) && ConformsAttribute(a, prior) && ConformsAttribute(a, config)
    ensures o in WalkAttribute(a, prior, config)
    decreases a
  {
    if config == prior {
      return Accepts;
    }
    if prior.SetV? || config.SetV? {
      return Rejects;
    }
    if a.Leaf? {
      return if a.computed && config.Null? then Accepts else Rejects;
    }
    o := VisitNesting(a.mode, a.body, prior, config);
  }

  method VisitBlock(b: Block, prior: Value, config: Value) returns (o: Outcome)
    requires SupportedBlock(b) && ConformsBlock(b, prior) && ConformsBlock(b, config)
    ensures o in WalkBlock(b, prior, config)
    decreases b
  {
    if config == prior {
      return Accepts;
    }
    if prior.SetV? || config.SetV? {
      return Rejects;
    }
    o := VisitNesting(b.mode, b.body, prior, config);
  }

  method VisitNesting(mode: NestingMode, s: Schema, prior: Value, config: Value) returns (o: Outcome)
    requires Supported(s)
    requires (prior.Null? || ConformsNesting(mode, s, prior)) && (config.Null? || ConformsNesting(mode, s, config))
    ensures o in WalkNesting(mode, s, prior, config)
    decreases s, 2
  {
    hide ConformsObject, Supported, Loop;
    if prior.Null? {
      return Accepts;
    }
    match mode
    case Single =>
      o := VisitFields(s, prior, config);
    case ListMode =>
      o := VisitElems(prior.elems, ElemsOf(config));
    case MapMode =>
      o := VisitEntries(prior.entries, EntriesOf(config));
    case SetMode =>
      o := Rejects;
  }

  method VisitElems(priors: seq<Value>, configs: seq<Value>) returns (o: Outcome)
    ensures o == WalkElems(priors, configs)
  {
    assert priors[0..] == priors && configs[0..] == configs;
    for i := 0 to |priors|
      invariant i <= |configs| && WalkElems(priors, configs) == WalkElems(priors[i..], configs[i..])
    {
      if i == |configs| {
        return Rejects;
      }
      if priors[i] != configs[i] {
        return Fails;
      }
      assert priors[i..][1..] == priors[i + 1..] && configs[i..][1..] == configs[i + 1..];
    }
    return Accepts;
  }

  method VisitEntries(priors: map<string, Value>, configs: map<string, Value>) returns (o: Outcome)
    ensures o in Loop(EntrySteps(priors, configs))
  {
    hide InSomeOrder;
    ghost var steps := EntrySteps(priors, configs);
    InSomeOrderIff(steps, Rejects);
    InSomeOrderIff(steps, Fails);
    var todo := priors.Keys;
    while todo != {}
      invariant todo <= priors.Keys
      invariant forall k | k in steps && k !in todo :: Accepts in steps[k]
    {
      var k :| k in todo;
      todo := todo - {k};
      if k !in configs {
        assert Rejects in steps[k];
        return Rejects;
      }
      if priors[k] != configs[k] {
        assert Fails in steps[k];
        return Fails;
      }
    }
    return Accepts;
  }
}
