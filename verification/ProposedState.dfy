/** The proposed-state merge of `pkg/controller/proposed_state.go`: the prior
    state and the configuration of a resource are merged under its schema.
    This file has the data model and the merge as functions. */
module ProposedState {

  /** A wholly known Terraform value. The members of a set are in the library's iteration order. */
  datatype Value =
    | Null
    | Atom(id: int)
    | Obj(fields: map<string, Value>)
    | ListV(elems: seq<Value>)
    | SetV(members: seq<Value>)
    | MapV(entries: map<string, Value>)

  datatype NestingMode = Single | ListMode | SetMode | MapMode

  datatype Attribute =
    | Leaf(computed: bool, optional: bool)
    | Nested(computed: bool, optional: bool, mode: NestingMode, body: Schema)

  /** A resource schema, or the nested object of a block or nested attribute. */
  datatype Schema = Schema(attrs: map<string, Attribute>, blocks: map<string, Block>)

  datatype Block = Block(mode: NestingMode, body: Schema)

  // ---------------------------------------------------------------- schemas

  ghost predicate Supported(s: Schema) {
    && s.attrs.Keys !! s.blocks.Keys
    && (forall n <- s.attrs :: SupportedAttribute(s.attrs[n]))
    && (forall n <- s.blocks :: SupportedBlock(s.blocks[n]))
  }

  /** The nested object of an attribute has no blocks. */
  ghost predicate SupportedAttribute(a: Attribute) {
    a.Nested? ==> a.body.blocks == map[] && Supported(a.body)
  }

  /** Blocks have no map nesting. */
  ghost predicate SupportedBlock(b: Block) {
    b.mode != MapMode && Supported(b.body)
  }

  ghost predicate Conforms(s: Schema, v: Value) {
    v.Null? || ConformsObject(s, v)
  }

  ghost predicate ConformsObject(s: Schema, v: Value)
    decreases s, 0
  {
    && v.Obj?
    && v.fields.Keys == s.attrs.Keys + s.blocks.Keys
    && (forall n <- s.attrs :: ConformsAttribute(s.attrs[n], v.fields[n]))
    && (forall n <- s.blocks :: ConformsBlock(s.blocks[n], v.fields[n]))
  }

  ghost predicate ConformsAttribute(a: Attribute, v: Value)
    decreases a
  {
    v.Null? || a.Leaf? || ConformsNesting(a.mode, a.body, v)
  }

  ghost predicate ConformsBlock(b: Block, v: Value)
    decreases b
  {
    v.Null? || ConformsNesting(b.mode, b.body, v)
  }

  ghost predicate ConformsNesting(mode: NestingMode, s: Schema, v: Value)
    decreases s, 1
  {
    match mode
    case Single => ConformsObject(s, v)
    case ListMode => v.ListV? && forall i | 0 <= i < |v.elems| :: ConformsObject(s, v.elems[i])
    case SetMode => v.SetV? && forall i | 0 <= i < |v.members| :: ConformsObject(s, v.members[i])
    case MapMode => v.MapV? && forall k <- v.entries :: ConformsObject(s, v.entries[k])
  }

  // ----------------------------------------------------------- empty values

  function EmptyValue(s: Schema): (v: Value)
    ensures Supported(s) ==> ConformsObject(s, v)
  {
    Obj(map n | n in s.attrs.Keys + s.blocks.Keys ::
      if n in s.blocks then EmptyBlock(s.blocks[n]) else EmptyAttribute(s.attrs[n]))
  }

  function EmptyAttribute(a: Attribute): (v: Value)
    ensures SupportedAttribute(a) ==> ConformsAttribute(a, v)
  {
    match a
    case Leaf(_, _) => Null
    case Nested(_, _, mode, body) =>
      match mode
      case Single =>
        var v := Obj(map n | n in body.attrs :: EmptyAttribute(body.attrs[n]));
        assert SupportedAttribute(a) ==> Supported(body) && ConformsObject(body, v);
        v
      case ListMode => ListV([])
      case SetMode => SetV([])
      case MapMode => MapV(map[])
  }

  function EmptyBlock(b: Block): (v: Value)
    ensures SupportedBlock(b) ==> ConformsBlock(b, v)
  {
    match b.mode
    case ListMode => ListV([])
    case SetMode => SetV([])
    case _ => Null
  }

  // ------------------------------------------------------------- correlation

  /** Whether `v` holds, below a nested object, a non-null attribute the schema does not compute. */
  predicate OptionalValueNotComputable(a: Attribute, v: Value)
    requires ConformsAttribute(a, v)
  {
    // Element steps do not resolve against the nested object, so only a single-nested
    // attribute can be found to hold configured values.
    && a.optional && a.Nested? && a.mode.Single? && !v.Null?
    && assert ConformsNesting(a.mode, a.body, v);
       exists n <- a.body.attrs :: NonComputedWithin(a.body.attrs[n], v.fields[n])
  }

  predicate NonComputedWithin(a: Attribute, v: Value)
    requires ConformsAttribute(a, v)
    decreases a
  {
    !v.Null? &&
    (!a.computed ||
     (a.Nested? &&
      assert ConformsNesting(a.mode, a.body, v);
      match a.mode
      case Single => NonComputedInObject(a.body, v)
      case ListMode => exists i | 0 <= i < |v.elems| :: NonComputedInObject(a.body, v.elems[i])
      case SetMode => exists i | 0 <= i < |v.members| :: NonComputedInObject(a.body, v.members[i])
      case MapMode => exists k <- v.entries :: NonComputedInObject(a.body, v.entries[k])))
  }

  predicate NonComputedInObject(s: Schema, v: Value)
    requires ConformsObject(s, v)
    decreases s
  {
    exists n <- s.attrs :: NonComputedWithin(s.attrs[n], v.fields[n])
  }

  /** The two element schemas the source dispatches on: the pseudo-schema of a block,
      or a nested attribute. */
  datatype ElementKind = BlockElement | AttributeElement

  ghost predicate SupportedElement(kind: ElementKind, s: Schema) {
    Supported(s) && (kind == AttributeElement ==> s.blocks == map[])
  }

  /** validPriorFromConfig for two set elements, where its walk comes to an end. The walk looks its paths up in the
      pseudo-schema of a block; a nested attribute resolves no path that starts with an attribute name, so that
      only shapes are compared below one. */
  predicate ValidPriorFromConfig(kind: ElementKind, s: Schema, prior: Value, config: Value)
    requires ConformsObject(s, prior) && ConformsObject(s, config)
  {
    match kind
    case BlockElement => FitsObject(s, prior, config)
    case AttributeElement => FitsShape(prior, config)
  }

  predicate FitsObject(s: Schema, prior: Value, config: Value)
    requires ConformsObject(s, prior) && ConformsObject(s, config)
    decreases s, 1
  {
    config == prior || FitsFields(s, prior, config)
  }

  /** Every path of the prior object must exist in the configuration. */
  predicate FitsFields(s: Schema, prior: Value, config: Value)
    requires ConformsObject(s, prior) && Conforms(s, config)
    decreases s, 0
  {
    && (forall n <- s.attrs :: config.Obj? && FitsAttribute(s.attrs[n], prior.fields[n], config.fields[n]))
    && (forall n <- s.blocks :: config.Obj? && FitsBlock(s.blocks[n], prior.fields[n], config.fields[n]))
  }

  /** A leaf may differ only where it is computed and null in the configuration; a set not even then. */
  predicate FitsAttribute(a: Attribute, prior: Value, config: Value)
    requires ConformsAttribute(a, prior) && ConformsAttribute(a, config)
    decreases a
  {
    || config == prior
    || (a.Leaf? && !prior.SetV? && !config.SetV? && a.computed && config.Null?)
    || (a.Nested? && FitsNesting(a.mode, a.body, prior, config))
  }

  predicate FitsBlock(b: Block, prior: Value, config: Value)
    requires ConformsBlock(b, prior) && ConformsBlock(b, config)
    decreases b
  {
    config == prior || FitsNesting(b.mode, b.body, prior, config)
  }

  /** What lies in the prior value is compared; the configuration may hold more. The walk does not get past an
      element of a list or map that differs. */
  predicate FitsNesting(mode: NestingMode, s: Schema, prior: Value, config: Value)
    requires prior.Null? || ConformsNesting(mode, s, prior)
    requires config.Null? || ConformsNesting(mode, s, config)
    decreases s, 2
  {
    mode != SetMode &&
    (prior.Null? ||
     match mode
     case Single => FitsFields(s, prior, config)
     case ListMode => prior.elems <= ElemsOf(config)
     case MapMode => forall k <- prior.entries :: k in EntriesOf(config) && prior.entries[k] == EntriesOf(config)[k]
     case SetMode => false)
  }

  /** The walk where no path resolves in the schema. */
  predicate FitsShape(prior: Value, config: Value) {
    || config == prior
    || (&& !prior.SetV? && !config.SetV?
        && match prior
           case Obj(m) => forall n <- m :: config.Obj? && n in config.fields && FitsShape(m[n], config.fields[n])
           case ListV(es) =>
             |es| <= |ElemsOf(config)| && forall i | 0 <= i < |es| :: FitsShape(es[i], ElemsOf(config)[i])
           case MapV(m) => forall k <- m :: config.MapV? && k in config.entries && FitsShape(m[k], config.entries[k])
           case _ => true)
  }

  // ---------------------------------------------------------------- the merge

  function ProposedNew(s: Schema, prior: Value, config: Value): (v: Value)
    requires Supported(s) && Conforms(s, prior) && Conforms(s, config)
    ensures Conforms(s, v) && (!config.Null? ==> v.Obj?)
    decreases s, 1
  {
    if config.Null? then
      prior
    else
      var from := if prior.Null? then EmptyValue(s) else prior;
      Obj(ProposedAttributes(s, from, config) + ProposedBlocks(s, from, config))
  }

  function ProposedObjectAttributes(s: Schema, prior: Value, config: Value): (v: Value)
    requires Supported(s) && s.blocks == map[] && Conforms(s, prior) && Conforms(s, config)
    ensures Conforms(s, v) && (!config.Null? ==> v.Obj?)
    decreases s, 1
  {
    if config.Null? then config
    else Obj(ProposedAttributes(s, prior, config))
  }

  /** The attribute part of the merge; a null prior object gives null prior attributes. */
  function ProposedAttributes(s: Schema, prior: Value, config: Value): (m: map<string, Value>)
    requires Supported(s) && Conforms(s, prior) && ConformsObject(s, config)
    ensures m.Keys == s.attrs.Keys
    ensures forall n <- m :: ConformsAttribute(s.attrs[n], m[n])
    decreases s, 0
  {
    map n | n in s.attrs :: ProposedAttribute(s.attrs[n], PriorField(prior, n), config.fields[n])
  }

  function ProposedBlocks(s: Schema, prior: Value, config: Value): (m: map<string, Value>)
    requires Supported(s) && ConformsObject(s, prior) && ConformsObject(s, config)
    ensures m.Keys == s.blocks.Keys
    ensures forall n <- m :: ConformsBlock(s.blocks[n], m[n])
    decreases s, 0
  {
    map n | n in s.blocks :: ProposedBlock(s.blocks[n], prior.fields[n], config.fields[n])
  }

  function PriorField(prior: Value, n: string): Value
    requires prior.Null? || (prior.Obj? && n in prior.fields)
  {
    if prior.Null? then Null else prior.fields[n]
  }

  function ProposedAttribute(a: Attribute, prior: Value, config: Value): (v: Value)
    requires SupportedAttribute(a) && ConformsAttribute(a, prior) && ConformsAttribute(a, config)
    ensures ConformsAttribute(a, v)
    decreases a
  {
    if a.computed && config.Null? then
      if OptionalValueNotComputable(a, prior) then config else prior
    else if a.Nested? && !config.Null? then
      ProposedNesting(a.mode, AttributeElement, a.body, prior, config)
    else
      config
  }

  function ProposedBlock(b: Block, prior: Value, config: Value): (v: Value)
    requires SupportedBlock(b) && ConformsBlock(b, prior) && ConformsBlock(b, config)
    ensures ConformsBlock(b, v)
    decreases b
  {
    if config.Null? then config
    else ProposedNesting(b.mode, BlockElement, b.body, prior, config)
  }

  /** The nesting modes at a non-null configuration; elements are correlated by index,
      by key, or, in a set, with the first unused prior element that fits. */
  function ProposedNesting(mode: NestingMode, kind: ElementKind, s: Schema, prior: Value, config: Value): (v: Value)
    requires SupportedElement(kind, s)
    requires prior.Null? || ConformsNesting(mode, s, prior)
    requires ConformsNesting(mode, s, config)
    ensures ConformsNesting(mode, s, v)
    decreases s, 4
  {
    match mode
    case Single => ProposedElement(kind, s, prior, config)
    case ListMode => ListV(ListElements(kind, s, ElemsOf(prior), config.elems))
    case SetMode => SetV(SetElements(kind, s, MembersOf(prior), config.members, Unused(|MembersOf(prior)|)))
    case MapMode => MapV(MapElements(kind, s, EntriesOf(prior), config.entries))
  }

  function ElemsOf(v: Value): seq<Value> { if v.ListV? then v.elems else [] }
  function MembersOf(v: Value): seq<Value> { if v.SetV? then v.members else [] }
  function EntriesOf(v: Value): map<string, Value> { if v.MapV? then v.entries else map[] }
  function Unused(n: nat): seq<bool> { seq(n, _ => false) }

  function ProposedElement(kind: ElementKind, s: Schema, prior: Value, config: Value): (v: Value)
    requires SupportedElement(kind, s)
    requires Conforms(s, prior) && ConformsObject(s, config)
    ensures ConformsObject(s, v)
    decreases s, 2
  {
    match kind
    case BlockElement => ProposedNew(s, prior, config)
    case AttributeElement => ProposedObjectAttributes(s, prior, config)
  }

  ghost predicate AllConform(s: Schema, vs: seq<Value>) {
    forall i | 0 <= i < |vs| :: ConformsObject(s, vs[i])
  }

  function ListElements(kind: ElementKind, s: Schema, priors: seq<Value>, configs: seq<Value>): (vs: seq<Value>)
    requires SupportedElement(kind, s)
    requires AllConform(s, priors) && AllConform(s, configs)
    ensures |vs| == |configs| && AllConform(s, vs)
    decreases s, 3, |configs|
  {
    if configs == [] then []
    else
      var last := |configs| - 1;
      ListElements(kind, s, priors, configs[..last]) +
        [if |priors| <= last then configs[last] else ProposedElement(kind, s, priors[last], configs[last])]
  }

  function MapElements(kind: ElementKind, s: Schema, priors: map<string, Value>, configs: map<string, Value>)
    : (m: map<string, Value>)
    requires SupportedElement(kind, s)
    requires forall k <- priors :: ConformsObject(s, priors[k])
    requires forall k <- configs :: ConformsObject(s, configs[k])
    ensures m.Keys == configs.Keys && forall k <- m :: ConformsObject(s, m[k])
    decreases s, 3
  {
    map k | k in configs :: if k in priors then ProposedElement(kind, s, priors[k], configs[k]) else configs[k]
  }

  /** The first prior element from `i` on that is unused and fits; `|priors|` when there is none. */
  function FirstMatch(kind: ElementKind, s: Schema, priors: seq<Value>, config: Value, used: seq<bool>, i: nat)
    : (j: nat)
    requires AllConform(s, priors) && ConformsObject(s, config) && |used| == |priors| && i <= |priors|
    ensures i <= j <= |priors|
    ensures j < |priors| ==> !used[j] && ValidPriorFromConfig(kind, s, priors[j], config)
    ensures forall k | i <= k < j :: used[k] || !ValidPriorFromConfig(kind, s, priors[k], config)
    decreases |priors| - i
  {
    if i == |priors| || (!used[i] && ValidPriorFromConfig(kind, s, priors[i], config)) then i
    else FirstMatch(kind, s, priors, config, used, i + 1)
  }

  function SetElements(kind: ElementKind, s: Schema, priors: seq<Value>, configs: seq<Value>, used: seq<bool>)
    : (vs: seq<Value>)
    requires SupportedElement(kind, s) && AllConform(s, priors) && AllConform(s, configs) && |used| == |priors|
    ensures |vs| == |configs| && AllConform(s, vs)
    decreases s, 3, |configs|
  {
    if configs == [] then []
    else
      var j := FirstMatch(kind, s, priors, configs[0], used, 0);
      if j < |priors| then
        [ProposedElement(kind, s, priors[j], configs[0])] + SetElements(kind, s, priors, configs[1..], used[j := true])
      else
        [ProposedElement(kind, s, Null, configs[0])] + SetElements(kind, s, priors, configs[1..], used)
  }
}
