/** Late initialization of a managed resource from the observed one (`pkg/resource/lateinit.go`). Values are the
    typed Go values that the walk by reflection sees: a struct is the sequence of its fields. */
module LateInitialization {
  import opened Wrappers

  datatype Type =
    Scalar | Pointer(elem: Type) | Slice(elem: Type) | Map(elem: Type) | Struct(fields: seq<Field>) | Other

  datatype Field = Field(name: string, omitEmpty: bool, typ: Type)

  datatype Value = Atom(text: string) | Nil | Ref(value: Value) | Items(items: seq<Value>) |
                   Entries(entries: map<string, Value>) | Record(fields: seq<Value>)

  ghost predicate HasType(v: Value, t: Type)
    decreases v
  {
    match t
    case Scalar => v.Atom?
    case Other => v.Atom? || v.Nil?
    case Pointer(elem) => v.Nil? || (v.Ref? && HasType(v.value, elem))
    case Slice(elem) => v.Nil? || (v.Items? && forall i | 0 <= i < |v.items| :: HasType(v.items[i], elem))
    case Map(elem) => v.Nil? || (v.Entries? && forall k <- v.entries :: HasType(v.entries[k], elem))
    case Struct(fields) =>
      v.Record? && |v.fields| == |fields| && forall i | 0 <= i < |fields| :: HasType(v.fields[i], fields[i].typ)
  }

  function Zero(t: Type): (v: Value)
    ensures HasType(v, t) && IsZero(v)
  {
    match t
    case Scalar => Atom("")
    case Struct(fields) => Record(seq(|fields|, i requires 0 <= i < |fields| => Zero(fields[i].typ)))
    case _ => Nil
  }

  predicate IsZero(v: Value) {
    match v
    case Atom(text) => text == ""
    case Nil => true
    case Record(fields) => forall i | 0 <= i < |fields| :: IsZero(fields[i])
    case _ => false
  }

  // ----------------------------------------------------------------------- filters

  datatype ValueFilter = ZeroValueJSONOmitEmpty(cName: string) | ZeroElemPtr(cName: string)

  /** A name filter with the wildcard name matches every field; a conditional filter knows whether its field is
      filled in spec.initProvider. */
  datatype Filters = Filters(names: seq<string>, conditionals: seq<(string, bool)>, values: seq<ValueFilter>)

  const CNAME_WILDCARD := ""

  function CanonicalName(parent: string, child: string): string {
    if parent == "" then child else parent + "." + child
  }

  predicate MatchesValue(filter: ValueFilter, cName: string, f: Field, observed: Value) {
    (filter.cName == CNAME_WILDCARD || filter.cName == cName) &&
    match filter
    case ZeroValueJSONOmitEmpty(_) =>
      f.omitEmpty &&
      (IsZero(observed) || observed == Items([]) || observed == Entries(map[]) ||
       (observed.Ref? && IsZero(observed.value)))
    case ZeroElemPtr(_) => f.typ.Pointer? && observed.Ref? && IsZero(observed.value)
  }

  predicate NameRejects(filters: Filters, cName: string) {
    (exists n <- filters.names :: n == CNAME_WILDCARD || n == cName) || (cName, true) in filters.conditionals
  }

  predicate ValueRejects(filters: Filters, cName: string, f: Field, observed: Value) {
    exists filter <- filters.values :: MatchesValue(filter, cName, f, observed)
  }

  /** Only pointers, slices and maps are initialized. */
  predicate Initializable(t: Type) {
    t.Pointer? || t.Slice? || t.Map?
  }

  /** Whether the walk takes over the observed value of a field that is not set. */
  predicate Takes(filters: Filters, cName: string, f: Field, observed: Value) {
    !NameRejects(filters, cName) && !ValueRejects(filters, cName, f, observed) && Initializable(f.typ)
  }

  // ------------------------------------------- the observed value minus what is filtered

  function Prune(filters: Filters, cName: string, t: Type, v: Value): (r: Value)
    requires HasType(v, t)
    ensures HasType(r, t)
    decreases v, 0
  {
    match t
    case Pointer(elem) =>
      if v.Ref? && elem.Struct? then Ref(Prune(filters, cName, elem, v.value)) else v
    case Slice(elem) =>
      if v.Nil? then Nil
      else Items(seq(|v.items|, i requires 0 <= i < |v.items| => Prune(filters, cName, elem, v.items[i])))
    case Map(elem) =>
      if v.Nil? then Nil else Entries(map k <- v.entries :: Prune(filters, cName, elem, v.entries[k]))
    case Struct(fields) =>
      Record(seq(|fields|, i requires 0 <= i < |fields| => PruneField(filters, cName, fields[i], v.fields[i])))
    case _ => v
  }

  function PruneField(filters: Filters, parent: string, f: Field, v: Value): (r: Value)
    requires HasType(v, f.typ)
    ensures HasType(r, f.typ)
    decreases v, 1
  {
    var cName := CanonicalName(parent, f.name);
    if Takes(filters, cName, f, v) then Prune(filters, cName, f.typ, v) else Zero(f.typ)
  }

  // -------------------------------------------------------------- errors and reporting

  predicate SliceItemKind(t: Type) {
    t.Pointer? || t.Struct? || t.Scalar?
  }

  predicate MapItemKind(t: Type) {
    t.Pointer? || t.Slice? || t.Scalar?
  }

  /** No slice or map that the walk copies has items of a kind it cannot. */
  predicate Supported(filters: Filters, cName: string, t: Type, v: Value)
    requires HasType(v, t)
    decreases v, 0
  {
    match t
    case Pointer(elem) => v.Ref? && elem.Struct? ==> Supported(filters, cName, elem, v.value)
    case Slice(elem) =>
      v.Items? ==>
        (v.items == [] || SliceItemKind(elem)) &&
        forall i | 0 <= i < |v.items| :: Supported(filters, cName, elem, v.items[i])
    case Map(elem) =>
      v.Entries? ==>
        (v.entries == map[] || MapItemKind(elem)) &&
        forall k <- v.entries :: Supported(filters, cName, elem, v.entries[k])
    case Struct(fields) => forall i | 0 <= i < |fields| :: SupportedField(filters, cName, fields[i], v.fields[i])
    case _ => true
  }

  predicate SupportedField(filters: Filters, parent: string, f: Field, v: Value)
    requires HasType(v, f.typ)
    decreases v, 1
  {
    var cName := CanonicalName(parent, f.name);
    Takes(filters, cName, f, v) ==> Supported(filters, cName, f.typ, v)
  }

  /** A value that is more than pointers to structs with nothing in them. */
  predicate Substance(t: Type, v: Value)
    requires HasType(v, t)
    decreases v
  {
    match t
    case Pointer(elem) => v.Ref? && (elem.Struct? ==> Substance(elem, v.value))
    case Slice(_) => v.Items?
    case Map(_) => v.Entries?
    case Struct(fields) =>
      exists i :: 0 <= i < |fields| && Initializable(fields[i].typ) && Substance(fields[i].typ, v.fields[i])
    case _ => false
  }

  /** Whether an observed value has anything to carry: a pointer, slice or map that is set, a pointer to a struct only
      if some field of it that is taken has. */
  predicate Finds(filters: Filters, cName: string, t: Type, v: Value)
    requires HasType(v, t)
    decreases v, 0
  {
    match t
    case Pointer(elem) => v.Ref? && (elem.Struct? ==> Finds(filters, cName, elem, v.value))
    case Slice(_) => v.Items?
    case Map(_) => v.Entries?
    case Struct(fields) => exists i :: 0 <= i < |fields| && FindsField(filters, cName, fields[i], v.fields[i])
    case _ => false
  }

  predicate FindsField(filters: Filters, parent: string, f: Field, v: Value)
    requires HasType(v, f.typ)
    decreases v, 1
  {
    var cName := CanonicalName(parent, f.name);
    Takes(filters, cName, f, v) && Finds(filters, cName, f.typ, v)
  }

  lemma ZeroHollow(t: Type)
    requires Initializable(t)
    ensures !Substance(t, Zero(t))
  {}

  /** What is carried over has substance exactly when the observed value has something to carry. */
  lemma {:induction false} SubstanceIff(filters: Filters, cName: string, t: Type, v: Value)
    requires HasType(v, t)
    ensures Substance(t, Prune(filters, cName, t, v)) <==> Finds(filters, cName, t, v)
    decreases v
  {
    hide NameRejects, ValueRejects;
    match t
    case Pointer(elem) =>
      if v.Ref? && elem.Struct? {
        SubstanceIff(filters, cName, elem, v.value);
      }
    case Struct(fields) =>
      var pruned := Prune(filters, cName, t, v);
      forall i | 0 <= i < |fields|
        ensures Initializable(fields[i].typ) && Substance(fields[i].typ, pruned.fields[i]) <==>
          FindsField(filters, cName, fields[i], v.fields[i])
      {
        var f := fields[i];
        assert pruned.fields[i] == PruneField(filters, cName, f, v.fields[i]);
        if Initializable(f.typ) {
          SubstanceIff(filters, CanonicalName(cName, f.name), f.typ, v.fields[i]);
          ZeroHollow(f.typ);
        }
      }
    case _ =>
  }

  // -------------------------------------------------------------- the walk

  function InitializedField(filters: Filters, parent: string, f: Field, desired: Value, observed: Value): Value
    requires HasType(observed, f.typ)
  {
    if IsZero(desired) && Takes(filters, CanonicalName(parent, f.name), f, observed)
    then Prune(filters, CanonicalName(parent, f.name), f.typ, observed)
    else desired
  }

  /** What the walk reports of a field. */
  predicate AssignedField(filters: Filters, parent: string, f: Field, desired: Value, observed: Value)
    requires HasType(observed, f.typ)
  {
    IsZero(desired) && Takes(filters, CanonicalName(parent, f.name), f, observed) &&
    Substance(f.typ, Prune(filters, CanonicalName(parent, f.name), f.typ, observed))
  }

  predicate FailsField(filters: Filters, parent: string, f: Field, desired: Value, observed: Value)
    requires HasType(observed, f.typ)
  {
    IsZero(desired) && !SupportedField(filters, parent, f, observed)
  }

  method NameFiltered(filters: Filters, cName: string) returns (filtered: bool)
    ensures filtered == NameRejects(filters, cName)
  {
    for i := 0 to |filters.names|
      invariant forall j | 0 <= j < i :: !(filters.names[j] == CNAME_WILDCARD || filters.names[j] == cName)
    {
      if filters.names[i] == CNAME_WILDCARD || filters.names[i] == cName {
        assert filters.names[i] in filters.names;
        return true;
      }
    }
    for i := 0 to |filters.conditionals|
      invariant forall j | 0 <= j < i :: filters.conditionals[j] != (cName, true)
    {
      if filters.conditionals[i].0 == cName && filters.conditionals[i].1 {
        assert filters.conditionals[i] == (cName, true);
        return true;
      }
    }
    filtered := false;
  }

  method ValueFiltered(filters: Filters, cName: string, f: Field, observed: Value) returns (filtered: bool)
    ensures filtered == ValueRejects(filters, cName, f, observed)
  {
    for i := 0 to |filters.values|
      invariant forall j | 0 <= j < i :: !MatchesValue(filters.values[j], cName, f, observed)
    {
      if MatchesValue(filters.values[i], cName, f, observed) {
        return true;
      }
    }
    filtered := false;
  }

  lemma FieldCases(filters: Filters, parent: string, f: Field, desired: Value, observed: Value)
    requires HasType(observed, f.typ)
    ensures !IsZero(desired) || !Takes(filters, CanonicalName(parent, f.name), f, observed) ==>
      InitializedField(filters, parent, f, desired, observed) == desired &&
      !AssignedField(filters, parent, f, desired, observed) && !FailsField(filters, parent, f, desired, observed)
    ensures IsZero(desired) && Takes(filters, CanonicalName(parent, f.name), f, observed) ==>
      var pruned := Prune(filters, CanonicalName(parent, f.name), f.typ, observed);
      InitializedField(filters, parent, f, desired, observed) == pruned &&
      AssignedField(filters, parent, f, desired, observed) == Substance(f.typ, pruned) &&
      FailsField(filters, parent, f, desired, observed) ==
        !Supported(filters, CanonicalName(parent, f.name), f.typ, observed)
  {}

  /** The walk has failed at a field: those before it are done, those behind it untouched. */
  ghost predicate StoppedAt(filters: Filters, parent: string, fields: seq<Field>, before: seq<Value>,
                            observed: seq<Value>, after: seq<Value>, f: nat)
    requires f < |fields| == |before| == |observed| == |after|
    requires forall i | 0 <= i < |fields| :: HasType(observed[i], fields[i].typ)
  {
    && FailsField(filters, parent, fields[f], before[f], observed[f])
    && (forall i | 0 <= i < f ::
          !FailsField(filters, parent, fields[i], before[i], observed[i]) &&
          after[i] == InitializedField(filters, parent, fields[i], before[i], observed[i]))
    && (forall i | f < i < |fields| :: after[i] == before[i])
  }

  /** Sets the fields of `desired` in place, and stops at the first error. */
  method HandleStruct(filters: Filters, parent: string, fields: seq<Field>, desired: array<Value>, observed: Value)
    returns (changed: bool, failed: bool)
    requires HasType(observed, Struct(fields)) && desired.Length == |fields|
    requires forall i | 0 <= i < |fields| :: HasType(desired[i], fields[i].typ)
    modifies desired
    ensures failed <==>
      exists i :: 0 <= i < |fields| && FailsField(filters, parent, fields[i], old(desired[i]), observed.fields[i])
    ensures forall i | 0 <= i < |fields| && !IsZero(old(desired[i])) :: desired[i] == old(desired[i])
    ensures failed ==>
      exists f: nat :: f < |fields| &&
        StoppedAt(filters, parent, fields, old(desired[..]), observed.fields, desired[..], f)
    ensures !failed ==>
      forall i | 0 <= i < |fields| ::
        desired[i] == InitializedField(filters, parent, fields[i], old(desired[i]), observed.fields[i])
    ensures !failed ==>
      (changed <==>
        exists i :: 0 <= i < |fields| && AssignedField(filters, parent, fields[i], old(desired[i]), observed.fields[i]))
    decreases observed, 1
  {
    hide Supported, Prune, Substance, NameRejects, ValueRejects, InitializedField, AssignedField, FailsField;
    changed, failed := false, false;
    for f := 0 to |fields|
      invariant forall i | 0 <= i < f :: !FailsField(filters, parent, fields[i], old(desired[i]), observed.fields[i])
      invariant forall i | 0 <= i < f ::
        desired[i] == InitializedField(filters, parent, fields[i], old(desired[i]), observed.fields[i])
      invariant forall i | 0 <= i < |fields| && (f <= i || !IsZero(old(desired[i]))) :: desired[i] == old(desired[i])
      invariant changed <==>
        exists i :: 0 <= i < f && AssignedField(filters, parent, fields[i], old(desired[i]), observed.fields[i])
    {
      var cName := CanonicalName(parent, fields[f].name);
      FieldCases(filters, parent, fields[f], desired[f], observed.fields[f]);
      var filtered := NameFiltered(filters, cName);
      if filtered {
        continue;
      }
      if !IsZero(desired[f]) {
        continue;
      }
      filtered := ValueFiltered(filters, cName, fields[f], observed.fields[f]);
      if filtered {
        continue;
      }
      var keep := false;
      if Initializable(fields[f].typ) {
        desired[f], keep, failed := HandleKind(filters, cName, fields[f].typ, desired[f], observed.fields[f]);
      }
      if failed {
        assert StoppedAt(filters, parent, fields, old(desired[..]), observed.fields, desired[..], f);
        return false, true;
      }
      changed := changed || keep;
    }
  }

  /** A struct that has been allocated for a pointer or an item: every field starts unset. */
  method HandleNewStruct(filters: Filters, cName: string, fields: seq<Field>, observed: Value)
    returns (after: Value, changed: bool, failed: bool)
    requires HasType(observed, Struct(fields))
    ensures Outcome(filters, cName, Struct(fields), observed, after, changed, failed)
    decreases observed, 2
  {
    var desired := new Value[|fields|](i requires 0 <= i < |fields| => Zero(fields[i].typ));
    changed, failed := HandleStruct(filters, cName, fields, desired, observed);
    after := Record(desired[..]);
  }

  /** The choice between the kinds of an unset field. */
  method HandleKind(filters: Filters, cName: string, t: Type, desired: Value, observed: Value)
    returns (after: Value, keep: bool, failed: bool)
    requires HasType(observed, t) && Initializable(t) && desired == Nil
    ensures Outcome(filters, cName, t, observed, after, keep, failed)
    decreases observed, 1
  {
    match t
    case Pointer(elem) => after, keep, failed := HandlePtr(filters, cName, elem, desired, observed);
    case Slice(elem) => after, keep, failed := HandleSlice(filters, cName, elem, desired, observed);
    case Map(elem) => after, keep, failed := HandleMap(filters, cName, elem, desired, observed);
  }

  /** How the walk over an unset value of this type ends. */
  ghost predicate Outcome(filters: Filters, cName: string, t: Type, observed: Value, after: Value, changed: bool,
                          failed: bool)
    requires HasType(observed, t)
  {
    failed == !Supported(filters, cName, t, observed) &&
    (!failed ==> after == Prune(filters, cName, t, observed) && changed == Substance(t, after))
  }

  method HandlePtr(filters: Filters, cName: string, elem: Type, desired: Value, observed: Value)
    returns (after: Value, keep: bool, failed: bool)
    requires HasType(observed, Pointer(elem)) && desired == Nil
    ensures Outcome(filters, cName, Pointer(elem), observed, after, keep, failed)
    decreases observed, 0
  {
    if observed.Nil? {
      return desired, false, false;
    }
    if elem.Struct? {
      var item;
      item, keep, failed := HandleNewStruct(filters, cName, elem.fields, observed.value);
      return Ref(item), keep, failed;
    }
    return Ref(observed.value), true, false;
  }

  /** Items are appended one at a time; whether an item was changed is not looked at. */
  method HandleSlice(filters: Filters, cName: string, elem: Type, desired: Value, observed: Value)
    returns (after: Value, keep: bool, failed: bool)
    requires HasType(observed, Slice(elem)) && desired == Nil
    ensures Outcome(filters, cName, Slice(elem), observed, after, keep, failed)
    decreases observed, 0
  {
    if observed.Nil? {
      return desired, false, false;
    }
    var items: seq<Value> := [];
    for i := 0 to |observed.items|
      invariant |items| == i
      invariant i > 0 ==> SliceItemKind(elem)
      invariant forall j | 0 <= j < i :: Supported(filters, cName, elem, observed.items[j])
      invariant forall j | 0 <= j < i :: items[j] == Prune(filters, cName, elem, observed.items[j])
    {
      var item, ignored := Nil, false;
      match elem {
        case Pointer(target) => item, ignored, failed := HandlePtr(filters, cName, target, Nil, observed.items[i]);
        case Struct(fields) => item, ignored, failed := HandleNewStruct(filters, cName, fields, observed.items[i]);
        case Scalar => item, failed := observed.items[i], false;
        case _ => failed := true;
      }
      if failed {
        return Items(items), false, true;
      }
      items := items + [item];
    }
    return Items(items), true, false;
  }

  lemma MapDone(filters: Filters, cName: string, elem: Type, observed: Value, entries: map<string, Value>)
    requires HasType(observed, Map(elem)) && observed.Entries? && entries.Keys == observed.entries.Keys
    requires entries != map[] ==> MapItemKind(elem)
    requires forall k <- entries :: Supported(filters, cName, elem, observed.entries[k])
    requires forall k <- entries :: entries[k] == Prune(filters, cName, elem, observed.entries[k])
    ensures Outcome(filters, cName, Map(elem), observed, Entries(entries), true, false)
  {
    assert Prune(filters, cName, Map(elem), observed).entries == entries;
    assert observed.entries != map[] ==> observed.entries.Keys != {};
  }

  lemma MapFails(filters: Filters, cName: string, elem: Type, observed: Value, k: string, after: Value)
    requires HasType(observed, Map(elem)) && observed.Entries? && k in observed.entries
    requires !(MapItemKind(elem) && Supported(filters, cName, elem, observed.entries[k]))
    ensures Outcome(filters, cName, Map(elem), observed, after, false, true)
  {}

  method HandleMap(filters: Filters, cName: string, elem: Type, desired: Value, observed: Value)
    returns (after: Value, keep: bool, failed: bool)
    requires HasType(observed, Map(elem)) && desired == Nil
    ensures Outcome(filters, cName, Map(elem), observed, after, keep, failed)
    decreases observed, 0
  {
    if observed.Nil? {
      return desired, false, false;
    }
    hide IsZero, Zero, NameRejects, ValueRejects, SupportedField, PruneField, Supported, Prune, Substance, Outcome;
    var entries: map<string, Value> := map[];
    var todo := observed.entries.Keys;
    while todo != {}
      invariant todo <= observed.entries.Keys && entries.Keys == observed.entries.Keys - todo
      invariant entries != map[] ==> MapItemKind(elem)
      invariant forall k <- entries :: Supported(filters, cName, elem, observed.entries[k])
      invariant forall k <- entries :: entries[k] == Prune(filters, cName, elem, observed.entries[k])
    {
      var k :| k in todo;
      todo := todo - {k};
      var item;
      item, failed := HandleMapItem(filters, cName, elem, observed.entries[k]);
      if failed {
        MapFails(filters, cName, elem, observed, k, Entries(entries));
        return Entries(entries), false, true;
      }
      entries := entries[k := item];
    }
    MapDone(filters, cName, elem, observed, entries);
    return Entries(entries), true, false;
  }

  method HandleMapItem(filters: Filters, cName: string, elem: Type, observed: Value) returns (item: Value, failed: bool)
    requires HasType(observed, elem)
    ensures failed == !(MapItemKind(elem) && Supported(filters, cName, elem, observed))
    ensures !failed ==> item == Prune(filters, cName, elem, observed)
    decreases observed, 1
  {
    item, failed := observed, false;
    var ignored;
    match elem
    case Pointer(target) => item, ignored, failed := HandlePtr(filters, cName, target, Nil, observed);
    case Slice(target) => item, ignored, failed := HandleSlice(filters, cName, target, Nil, observed);
    case Scalar =>
    case _ => failed := true;
  }

  // ------------------------------------------------------------------------- laws

  /** A second run with the same observed object changes nothing, reports nothing, and has nothing to fail on. */
  lemma SecondRunIsQuiet(filters: Filters, parent: string, f: Field, desired: Value, observed: Value)
    requires HasType(observed, f.typ)
    requires !FailsField(filters, parent, f, desired, observed)
    ensures var after := InitializedField(filters, parent, f, desired, observed);
      && InitializedField(filters, parent, f, after, observed) == after
      && !AssignedField(filters, parent, f, after, observed)
      && !FailsField(filters, parent, f, after, observed)
  {
    hide NameRejects, ValueRejects;
  }

  /** Two runs over a whole object: if the first does not fail, the second finds nothing to do. */
  method InitializeTwice(filters: Filters, fields: seq<Field>, desired: seq<Value>, observed: Value)
    returns (once: seq<Value>, twice: seq<Value>, failed: bool, changedAgain: bool, failedAgain: bool)
    requires HasType(observed, Struct(fields)) && HasType(Record(desired), Struct(fields))
    ensures failed <==>
      exists i :: 0 <= i < |fields| && FailsField(filters, "", fields[i], desired[i], observed.fields[i])
    ensures |once| == |fields| && forall i | 0 <= i < |fields| && !IsZero(desired[i]) :: once[i] == desired[i]
    ensures !failed ==> HasType(Record(once), Struct(fields)) && twice == once && !changedAgain && !failedAgain
  {
    hide IsZero, Takes, FailsField, AssignedField, InitializedField, Prune, NameRejects, ValueRejects;
    var target := new Value[|fields|](i requires 0 <= i < |fields| => desired[i]);
    assert target[..] == desired;
    var changed;
    changed, failed := HandleStruct(filters, "", fields, target, observed);
    once, twice, changedAgain, failedAgain := target[..], target[..], false, false;
    if !failed {
      forall i | 0 <= i < |fields|
        ensures HasType(once[i], fields[i].typ)
        ensures InitializedField(filters, "", fields[i], once[i], observed.fields[i]) == once[i]
        ensures !AssignedField(filters, "", fields[i], once[i], observed.fields[i])
        ensures !FailsField(filters, "", fields[i], once[i], observed.fields[i])
      {
        InitializedTyped(filters, "", fields[i], desired[i], observed.fields[i]);
        SecondRunIsQuiet(filters, "", fields[i], desired[i], observed.fields[i]);
      }
      changedAgain, failedAgain := HandleStruct(filters, "", fields, target, observed);
      twice := target[..];
    }
  }

  lemma InitializedTyped(filters: Filters, parent: string, f: Field, desired: Value, observed: Value)
    requires HasType(desired, f.typ) && HasType(observed, f.typ)
    ensures HasType(InitializedField(filters, parent, f, desired, observed), f.typ)
  {}

  /** The fields of an object after a run without an error. */
  function Initialize(filters: Filters, fields: seq<Field>, desired: seq<Value>, observed: seq<Value>)
    : (after: seq<Value>)
    requires HasType(Record(desired), Struct(fields)) && HasType(Record(observed), Struct(fields))
    ensures |after| == |fields|
  {
    seq(|fields|, i requires 0 <= i < |fields| => InitializedField(filters, "", fields[i], desired[i], observed[i]))
  }

  /** Whether a run without an error reports a change. */
  predicate Reported(filters: Filters, fields: seq<Field>, desired: seq<Value>, observed: seq<Value>)
    requires HasType(Record(desired), Struct(fields)) && HasType(Record(observed), Struct(fields))
  {
    exists i :: 0 <= i < |fields| && AssignedField(filters, "", fields[i], desired[i], observed[i])
  }

  /** An unset field that is taken over, a pointer to a struct in which there is nothing to carry. */
  predicate Hollow(filters: Filters, f: Field, desired: Value, observed: Value)
    requires HasType(observed, f.typ)
  {
    IsZero(desired) && Takes(filters, CanonicalName("", f.name), f, observed) &&
    observed.Ref? && f.typ.elem.Struct? && !Finds(filters, CanonicalName("", f.name), f.typ.elem, observed.value)
  }

  /** Some unset field is hollow, and no unset field has anything to carry. */
  predicate OnlyHollow(filters: Filters, fields: seq<Field>, desired: seq<Value>, observed: seq<Value>)
    requires HasType(Record(desired), Struct(fields)) && HasType(Record(observed), Struct(fields))
  {
    (exists i :: 0 <= i < |fields| && Hollow(filters, fields[i], desired[i], observed[i])) &&
    (forall i | 0 <= i < |fields| && IsZero(desired[i]) :: !FindsField(filters, "", fields[i], observed[i]))
  }

  lemma FieldStored(filters: Filters, f: Field, desired: Value, observed: Value)
    requires HasType(desired, f.typ) && HasType(observed, f.typ)
    ensures AssignedField(filters, "", f, desired, observed) <==>
      IsZero(desired) && FindsField(filters, "", f, observed)
    ensures InitializedField(filters, "", f, desired, observed) != desired <==>
      AssignedField(filters, "", f, desired, observed) || Hollow(filters, f, desired, observed)
  {
    hide NameRejects, ValueRejects;
    SubstanceIff(filters, CanonicalName("", f.name), f.typ, observed);
  }

  /** Something is stored and nothing reported exactly when all there is to store are pointers to structs in which
      there is nothing to carry. */
  lemma UnreportedIff(filters: Filters, fields: seq<Field>, desired: seq<Value>, observed: seq<Value>)
    requires HasType(Record(desired), Struct(fields)) && HasType(Record(observed), Struct(fields))
    ensures (Initialize(filters, fields, desired, observed) != desired &&
             !Reported(filters, fields, desired, observed)) <==>
      OnlyHollow(filters, fields, desired, observed)
  {
    hide InitializedField, AssignedField, Hollow, FindsField, IsZero;
    var after := Initialize(filters, fields, desired, observed);
    forall i | 0 <= i < |fields|
      ensures AssignedField(filters, "", fields[i], desired[i], observed[i]) <==>
        IsZero(desired[i]) && FindsField(filters, "", fields[i], observed[i])
      ensures after[i] != desired[i] <==>
        AssignedField(filters, "", fields[i], desired[i], observed[i]) ||
          Hollow(filters, fields[i], desired[i], observed[i])
    {
      FieldStored(filters, fields[i], desired[i], observed[i]);
    }
    assert after == desired <==> forall i | 0 <= i < |fields| :: after[i] == desired[i];
  }

  /** Such an object: its one field, a pointer, is not set, and the struct observed behind it has a plain field. */
  lemma UnreportedChange() returns (fields: seq<Field>, observed: seq<Value>)
    ensures HasType(Record([Nil]), Struct(fields)) && HasType(Record(observed), Struct(fields))
    ensures var filters := Filters([], [], []);
      Initialize(filters, fields, [Nil], observed) == [Ref(Record([Atom("")]))] &&
        !Reported(filters, fields, [Nil], observed)
  {
    var size := Field("Size", true, Scalar);
    var f := Field("Spec", true, Pointer(Struct([size])));
    fields, observed := [f], [Ref(Record([Atom("large")]))];
    var filters := Filters([], [], []);
    var pruned := Prune(filters, "Spec", f.typ.elem, observed[0].value);
    assert pruned.fields[0] == PruneField(filters, "Spec", size, Atom("large")) == Atom("");
    assert pruned == Record([Atom("")]);
    assert Initialize(filters, fields, [Nil], observed)[0] == Ref(pruned);
  }

  /** LateInitialize: nothing happens if either object is missing; otherwise set fields stay, and without an error a
      stored value goes unreported exactly when all there is to store is hollow. */
  method LateInitialize(filters: Filters, fields: seq<Field>, desired: array?<Value>, observed: Option<Value>)
    returns (changed: bool, failed: bool)
    requires observed.Some? ==> HasType(observed.value, Struct(fields))
    requires desired != null ==> HasType(Record(desired[..]), Struct(fields))
    modifies desired
    ensures desired == null || observed.None? ==> !changed && !failed
    ensures desired != null && observed.None? ==> desired[..] == old(desired[..])
    ensures desired != null && observed.Some? ==>
      && (failed <==> exists i ::
            0 <= i < |fields| && FailsField(filters, "", fields[i], old(desired[..])[i], observed.value.fields[i]))
      && (!failed ==>
            && desired[..] == Initialize(filters, fields, old(desired[..]), observed.value.fields)
            && (!changed && desired[..] != old(desired[..]) <==>
                OnlyHollow(filters, fields, old(desired[..]), observed.value.fields)))
  {
    hide FailsField, AssignedField, InitializedField, OnlyHollow;
    if desired == null || observed.None? {
      return false, false;
    }
    ghost var before := desired[..];
    changed, failed := HandleStruct(filters, "", fields, desired, observed.value);
    UnreportedIff(filters, fields, before, observed.value.fields);
    assert !failed ==> desired[..] == Initialize(filters, fields, before, observed.value.fields);
  }

  /** A way down a value: through a pointer, to an item, an entry or a field. */
  datatype Step = Deref | At(index: nat) | Under(key: string) | Fld(index: nat)

  function Get(v: Value, p: seq<Step>): Option<Value> {
    if p == [] then Some(v)
    else if p[0].Deref? && v.Ref? then Get(v.value, p[1..])
    else if p[0].At? && v.Items? && p[0].index < |v.items| then Get(v.items[p[0].index], p[1..])
    else if p[0].Under? && v.Entries? && p[0].key in v.entries then Get(v.entries[p[0].key], p[1..])
    else if p[0].Fld? && v.Record? && p[0].index < |v.fields| then Get(v.fields[p[0].index], p[1..])
    else None
  }

  /** No field of a walked struct is filtered on the way; below a pointer to anything else all is taken. */
  predicate Passes(filters: Filters, cName: string, t: Type, v: Value, p: seq<Step>)
    requires HasType(v, t)
    decreases v
  {
    if p == [] then true
    else
      match t
      case Pointer(elem) => v.Ref? && elem.Struct? ==> Passes(filters, cName, elem, v.value, p[1..])
      case Slice(elem) =>
        v.Items? && p[0].At? && p[0].index < |v.items| ==> Passes(filters, cName, elem, v.items[p[0].index], p[1..])
      case Map(elem) =>
        v.Entries? && p[0].Under? && p[0].key in v.entries ==> Passes(filters, cName, elem, v.entries[p[0].key], p[1..])
      case Struct(fields) =>
        p[0].Fld? && p[0].index < |fields| ==>
          var f, x := fields[p[0].index], v.fields[p[0].index];
          Takes(filters, CanonicalName(cName, f.name), f, x) &&
          Passes(filters, CanonicalName(cName, f.name), f.typ, x, p[1..])
      case _ => true
  }

  /** The same leaf, or values of one kind with the same length or keys. */
  predicate SameHead(x: Value, y: Value) {
    match x
    case Atom(_) => x == y
    case Nil => y.Nil?
    case Ref(_) => y.Ref?
    case Items(items) => y.Items? && |items| == |y.items|
    case Entries(entries) => y.Entries? && entries.Keys == y.entries.Keys
    case Record(fields) => y.Record? && |fields| == |y.fields|
  }

  /** A zero value is zero all the way down. */
  lemma {:induction false} ZeroBelow(t: Type, p: seq<Step>)
    requires Get(Zero(t), p).Some?
    ensures IsZero(Get(Zero(t), p).value)
    decreases t
  {
    if p != [] && t.Struct? && p[0].Fld? && p[0].index < |t.fields| {
      ZeroBelow(t.fields[p[0].index].typ, p[1..]);
    }
  }

  /** What is carried over, at any depth: every observed value that no filter is passed on the way to is there, with its
      leaf, length or keys; wherever else something is, it is zero. */
  lemma {:induction false} CarriedIff(filters: Filters, cName: string, t: Type, v: Value, p: seq<Step>)
    requires HasType(v, t)
    ensures var carried := Get(Prune(filters, cName, t, v), p);
      if Get(v, p).Some? && Passes(filters, cName, t, v, p)
      then carried.Some? && SameHead(carried.value, Get(v, p).value)
      else carried.Some? ==> IsZero(carried.value)
    decreases v
  {
    hide NameRejects, ValueRejects;
    if p != [] {
      var rest := p[1..];
      match t
      case Pointer(elem) =>
        if v.Ref? && elem.Struct? { CarriedIff(filters, cName, elem, v.value, rest); }
      case Slice(elem) =>
        if v.Items? && p[0].At? && p[0].index < |v.items| {
          CarriedIff(filters, cName, elem, v.items[p[0].index], rest);
        }
      case Map(elem) =>
        if v.Entries? && p[0].Under? && p[0].key in v.entries {
          CarriedIff(filters, cName, elem, v.entries[p[0].key], rest);
        }
      case Struct(fields) =>
        if p[0].Fld? && p[0].index < |fields| {
          var f, x := fields[p[0].index], v.fields[p[0].index];
          if Takes(filters, CanonicalName(cName, f.name), f, x) {
            CarriedIff(filters, CanonicalName(cName, f.name), f.typ, x, rest);
          } else if Get(Zero(f.typ), rest).Some? {
            ZeroBelow(f.typ, rest);
          }
        }
      case _ =>
    }
  }

  /** So a leaf other than the zero one is carried over exactly where it is observed and no filter is passed. */
  lemma LeafCarriedIff(filters: Filters, cName: string, t: Type, v: Value, p: seq<Step>, text: string)
    requires HasType(v, t) && text != ""
    ensures Get(Prune(filters, cName, t, v), p) == Some(Atom(text)) <==>
      Get(v, p) == Some(Atom(text)) && Passes(filters, cName, t, v, p)
  {
    CarriedIff(filters, cName, t, v, p);
  }
}
