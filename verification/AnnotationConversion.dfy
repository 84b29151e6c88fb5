/** Fields absent from one API version are parked in an annotation and restored later
    (`pkg/config/conversion/conversions.go`, `pkg/controller/conversion/functions.go`). */
module AnnotationConversion {
  import opened JsonDocument
  import opened Wrappers

  /** The annotation: values by expanded path. Its JSON form is an exact inverse and not modelled. */
  type FieldMap = map<ConcretePath, Json>

  // ----------------------------------------------------------- expansions

  predicate SegmentMatches(c: Concrete, s: Segment) {
    s == W || (c.Fld? && c.name == s.name)
  }

  /** isExpansionOf */
  predicate IsExpansionOf(e: ConcretePath, p: Path) {
    |e| == |p| && forall i | 0 <= i < |p| :: SegmentMatches(e[i], p[i])
  }

  /** The expansions of a path in a document are exactly the matching paths that hold a value there. */
  lemma {:induction false} ExpandIsExact(p: Path, v: Json, e: ConcretePath)
    requires Expand(p, v).Some?
    ensures e in Expand(p, v).value <==> IsExpansionOf(e, p) && GetValue(v, e).Some?
    decreases |p|
  {
    if p != [] && e in Expand(p, v).value {
      ExpansionStep(p, v, e);
      ExpandIsExact(p[1..], Child(v, e[0]).value, e[1..]);
      assert e == [e[0]] + e[1..];
      forall i | 0 <= i < |p|
        ensures SegmentMatches(e[i], p[i])
      {
        assert i > 0 ==> SegmentMatches(e[1..][i - 1], p[1..][i - 1]);
      }
    } else if p != [] && IsExpansionOf(e, p) && GetValue(v, e).Some? {
      var c := Child(v, e[0]).value;
      assert SegmentMatches(e[0], p[0]);
      assert e == [e[0]] + e[1..];
      ExpandIntoChild(p, v, e[0]);
      forall i | 0 <= i < |p[1..]|
        ensures SegmentMatches(e[1..][i], p[1..][i])
      {
        assert SegmentMatches(e[i + 1], p[i + 1]);
      }
      ExpandIsExact(p[1..], c, e[1..]);
    }
  }

  lemma ExpandIntoChild(p: Path, v: Json, c: Concrete)
    requires p != [] && Expand(p, v).Some? && Child(v, c).Some? && SegmentMatches(c, p[0])
    ensures var below := Expand(p[1..], Child(v, c).value);
            below.Some? && forall e <- below.value :: [c] + e in Expand(p, v).value
  {}

  // ------------------------------------------------------------ to annotation

  function Entries(a: Option<FieldMap>): FieldMap {
    if a.Some? then a.value else map[]
  }

  /** The entries after a path has been parked: its expansions are exactly the source's current
      values, all other entries are as they were. */
  function Synced(m: FieldMap, p: Path, v: Json): FieldMap
    requires Expand(p, v).Some?
  {
    WithoutExpansions(m, p) + Current(v, Expand(p, v).value)
  }

  /** The annotation is left alone, present or not, when there is nothing to write or remove. */
  function Parked(a: Option<FieldMap>, p: Path, v: Json): Option<FieldMap>
    requires Expand(p, v).Some?
  {
    if Expand(p, v).value == {} && forall k <- Entries(a) :: !IsExpansionOf(k, p) then a
    else Some(Synced(Entries(a), p, v))
  }

  function ParkedAll(a: Option<FieldMap>, ps: seq<Path>, v: Json): Option<FieldMap>
    requires forall i | 0 <= i < |ps| :: Expand(ps[i], v).Some?
  {
    if ps == [] then a
    else Parked(ParkedAll(a, ps[..|ps| - 1], v), ps[|ps| - 1], v)
  }

  /** What an entry is after a path has been parked, without reference to how it was done. */
  ghost predicate HoldsCurrent(m: FieldMap, e: ConcretePath, v: Json) {
    (e in m <==> GetValue(v, e).Some?) && (e in m ==> GetValue(v, e) == Some(m[e]))
  }

  ghost predicate SameEntry(m: FieldMap, m': FieldMap, e: ConcretePath) {
    (e in m <==> e in m') && (e in m ==> m[e] == m'[e])
  }

  /** The sync refines a simple map: no stale expansion survives and nothing else is touched. */
  lemma ParkedIsExact(a: Option<FieldMap>, p: Path, v: Json, e: ConcretePath)
    requires Expand(p, v).Some?
    ensures var m, m' := Entries(a), Entries(Parked(a, p, v));
            if IsExpansionOf(e, p) then HoldsCurrent(m', e, v) else SameEntry(m, m', e)
  {
    ExpandIsExact(p, v, e);
  }

  ghost predicate Covered(e: ConcretePath, ps: seq<Path>) {
    exists i :: 0 <= i < |ps| && IsExpansionOf(e, ps[i])
  }

  lemma CoveredStep(e: ConcretePath, ps: seq<Path>)
    requires ps != []
    ensures Covered(e, ps) <==> Covered(e, ps[..|ps| - 1]) || IsExpansionOf(e, ps[|ps| - 1])
  {
    var before := ps[..|ps| - 1];
    if Covered(e, before) {
      var i :| 0 <= i < |before| && IsExpansionOf(e, before[i]);
      assert IsExpansionOf(e, ps[i]);
    }
    if Covered(e, ps) {
      var i :| 0 <= i < |ps| && IsExpansionOf(e, ps[i]);
      assert i < |before| ==> IsExpansionOf(e, before[i]);
    }
  }

  /** A whole chain of conversions, whose paths may overlap, does the same for all of them. */
  lemma {:induction false} ParkedAllIsExact(a: Option<FieldMap>, ps: seq<Path>, v: Json, e: ConcretePath)
    requires forall i | 0 <= i < |ps| :: Expand(ps[i], v).Some?
    ensures var m, m' := Entries(a), Entries(ParkedAll(a, ps, v));
            if Covered(e, ps) then HoldsCurrent(m', e, v) else SameEntry(m, m', e)
    decreases |ps|
  {
    if ps != [] {
      var last := |ps| - 1;
      CoveredStep(e, ps);
      ParkedAllIsExact(a, ps[..last], v, e);
      ParkedIsExact(ParkedAll(a, ps[..last], v), ps[last], v, e);
      hide Covered, IsExpansionOf, GetValue, Entries, Parked;
    }
  }

  // --------------------------------------------------- setting values in place

  /** What is created for a missing parent, given the segment below it. */
  function NewContainer(next: Concrete): Json {
    match next
    case Fld(_) => Obj(map[])
    case Idx(i) => Arr(seq(i + 1, _ => Null))
  }

  /** A list too short for the index below it is padded with nulls. */
  function Extended(c: Json, next: Concrete): Json {
    if c.Arr? && next.Idx? && next.i >= |c.elems| then
      Arr(c.elems + seq(next.i + 1 - |c.elems|, _ => Null))
    else c
  }

  /** The child a path goes on through, created or padded where needed. */
  function Prepared(v: Json, c: Concrete, next: Concrete): Option<Json> {
    match c
    case Fld(n) =>
      if !v.Obj? then None
      else if n in v.fields then Some(Extended(v.fields[n], next)) else Some(NewContainer(next))
    case Idx(i) =>
      if !v.Arr? || i >= |v.elems| then None
      else if v.elems[i].Null? then Some(NewContainer(next)) else Some(Extended(v.elems[i], next))
  }

  /** The library's SetValue; `None` is its error. */
  function SetValue(v: Json, e: ConcretePath, x: Json): Option<Json>
    decreases |e|
  {
    if e == [] then Some(v)
    else if |e| == 1 then
      match e[0]
      case Fld(n) => if v.Obj? then Some(Obj(v.fields[n := x])) else None
      case Idx(i) => if v.Arr? && i < |v.elems| then Some(Arr(v.elems[i := x])) else None
    else
      match Prepared(v, e[0], e[1])
      case None => None
      case Some(c) =>
        match SetValue(c, e[1..], x)
        case None => None
        case Some(c') =>
          match e[0]
          case Fld(n) => Some(Obj(v.fields[n := c']))
          case Idx(i) => Some(Arr(v.elems[i := c']))
  }

  /** Wherever both documents have a container, it is of the same kind; list items may be missing. */
  ghost predicate Matches(d: Json, v: Json) {
    match v
    case Obj(m) => d.Obj? && forall k <- m :: k in d.fields ==> Matches(d.fields[k], m[k])
    case Arr(es) => d.Arr? && forall i | 0 <= i < |es| :: i < |d.elems| ==>
      d.elems[i].Null? || Matches(d.elems[i], es[i])
    case _ => true
  }

  lemma {:induction false} MatchesItself(v: Json)
    ensures Matches(v, v)
  {
    match v
    case Obj(m) =>
      forall k <- m { MatchesItself(m[k]); }
    case Arr(es) =>
      forall i | 0 <= i < |es| { MatchesItself(es[i]); }
    case _ =>
  }

  lemma PreparedMatches(d: Json, v: Json, e: ConcretePath)
    requires |e| > 1 && Matches(d, v) && GetValue(v, e).Some?
    requires e[0].Idx? ==> d.Arr? && e[0].i < |d.elems|
    ensures Child(v, e[0]).Some? && Child(Child(v, e[0]).value, e[1]).Some?
    ensures var c := Prepared(d, e[0], e[1]);
            && c.Some? && Matches(c.value, Child(v, e[0]).value)
            && (e[1].Idx? ==> c.value.Arr? && e[1].i < |c.value.elems|)
  {
    assert e[1..][0] == e[1];
  }

  /** Setting a value the other document holds succeeds, arrives, and keeps the documents matching. */
  lemma {:induction false} SetRestores(d: Json, v: Json, e: ConcretePath)
    requires e != [] && Matches(d, v) && GetValue(v, e).Some?
    requires e[0].Idx? ==> d.Arr? && e[0].i < |d.elems|
    ensures var d' := SetValue(d, e, GetValue(v, e).value);
            d'.Some? && Matches(d'.value, v) && GetValue(d'.value, e) == GetValue(v, e)
    decreases |e|
  {
    var x := GetValue(v, e).value;
    var c := Child(v, e[0]).value;
    if |e| == 1 {
      assert x == c;
      MatchesItself(x);
    } else {
      PreparedMatches(d, v, e);
      SetRestores(Prepared(d, e[0], e[1]).value, c, e[1..]);
    }
  }

  lemma {:induction false} SetSame(v: Json, e: ConcretePath)
    requires e != [] && GetValue(v, e).Some?
    ensures SetValue(v, e, GetValue(v, e).value) == Some(v)
    decreases |e|
  {
    var c := Child(v, e[0]).value;
    if |e| > 1 {
      assert e[1..][0] == e[1] && Child(c, e[1]).Some?;
      assert Prepared(v, e[0], e[1]) == Some(c);
      SetSame(c, e[1..]);
    }
    match e[0]
    case Fld(n) => assert v.fields[n := c] == v.fields;
    case Idx(i) => assert v.elems[i := c] == v.elems;
  }

  /** A path at which the documents agree already is not disturbed. */
  lemma {:induction false} SetKeeps(d: Json, v: Json, e: ConcretePath, f: ConcretePath)
    requires e != [] && Matches(d, v) && GetValue(v, e).Some?
    requires e[0].Idx? ==> d.Arr? && e[0].i < |d.elems|
    requires GetValue(v, f).Some? && GetValue(d, f) == GetValue(v, f)
    ensures var d' := SetValue(d, e, GetValue(v, e).value);
            d'.Some? && GetValue(d'.value, f) == GetValue(v, f)
    decreases |e|
  {
    SetRestores(d, v, e);
    if f == [] {
      SetSame(v, e);
    } else if f[0] == e[0] && |e| > 1 {
      PreparedMatches(d, v, e);
      var c, b := Child(v, e[0]).value, Prepared(d, e[0], e[1]).value;
      assert Child(d, e[0]).Some? && GetValue(Child(d, e[0]).value, f[1..]) == GetValue(c, f[1..]);
      PreparedKeeps(d, e[0], e[1], c, f[1..]);
      SetKeeps(b, c, e[1..], f[1..]);
    }
  }

  lemma PreparedKeeps(d: Json, c0: Concrete, next: Concrete, c: Json, f: ConcretePath)
    requires Child(d, c0).Some? && Child(c, next).Some? && Prepared(d, c0, next).Some?
    requires GetValue(c, f).Some? && GetValue(Child(d, c0).value, f) == GetValue(c, f)
    ensures GetValue(Prepared(d, c0, next).value, f) == GetValue(c, f)
  {}

  // ---------------------------------------------------------- the conversions

  /** A paved object: its document and the field conversion annotation, if it has one. */
  class Paved {
    var doc: Json
    var annotation: Option<FieldMap>

    constructor (doc: Json, annotation: Option<FieldMap>)
      ensures this.doc == doc && this.annotation == annotation
    {
      this.doc := doc;
      this.annotation := annotation;
    }
  }

  function WithoutExpansions(m: FieldMap, p: Path): FieldMap {
    map k | k in m && !IsExpansionOf(k, p) :: m[k]
  }

  function Current(v: Json, es: set<ConcretePath>): FieldMap {
    map e | e in es && GetValue(v, e).Some? :: GetValue(v, e).value
  }

  /** The first loop of the sync: stale expansions are deleted. */
  method DeleteStale(existing: FieldMap, p: Path) returns (fieldMap: FieldMap, staleRemoved: bool)
    ensures fieldMap == WithoutExpansions(existing, p)
    ensures staleRemoved <==> exists k :: k in existing && IsExpansionOf(k, p)
  {
    fieldMap, staleRemoved := existing, false;
    var keys := fieldMap.Keys;
    while keys != {}
      invariant keys <= existing.Keys
      invariant forall k :: k in fieldMap <==> k in existing && (k in keys || !IsExpansionOf(k, p))
      invariant forall k <- fieldMap :: fieldMap[k] == existing[k]
      invariant staleRemoved <==> exists k :: k in existing.Keys - keys && IsExpansionOf(k, p)
    {
      hide IsExpansionOf;
      var k :| k in keys;
      if IsExpansionOf(k, p) {
        fieldMap := fieldMap - {k};
        staleRemoved := true;
      }
      keys := keys - {k};
    }
    assert fieldMap == WithoutExpansions(existing, p);
  }

  lemma CurrentStep(kept: FieldMap, v: Json, done: set<ConcretePath>, e: ConcretePath)
    ensures kept + Current(v, done + {e}) ==
      if GetValue(v, e).Some? then (kept + Current(v, done))[e := GetValue(v, e).value] else kept + Current(v, done)
  {
    hide GetValue;
  }

  /** The second loop: the current values are stored. */
  method StoreCurrent(kept: FieldMap, es: set<ConcretePath>, v: Json) returns (fieldMap: FieldMap)
    ensures fieldMap == kept + Current(v, es)
  {
    fieldMap := kept;
    var todo := es;
    assert Current(v, es - todo) == map[];
    while todo != {}
      invariant todo <= es
      invariant fieldMap == kept + Current(v, es - todo)
    {
      hide GetValue, Current;
      var e :| e in todo;
      CurrentStep(kept, v, es - todo, e);
      assert es - (todo - {e}) == es - todo + {e};
      var fieldValue := GetValue(v, e);
      if fieldValue.Some? {
        fieldMap := fieldMap[e := fieldValue.value];
      }
      todo := todo - {e};
    }
    assert es - todo == es;
  }

  /** convertToAnnotation for one registered path: `None` is an error, otherwise whether the target's
      annotation was written. Stale expansions are deleted before the current values are stored. */
  method ConvertToAnnotation(p: Path, src: Paved, target: Paved) returns (r: Option<bool>)
    requires src != target
    modifies target`annotation
    ensures r.None? <==> Expand(p, src.doc).None?
    ensures r.None? ==> target.annotation == old(target.annotation)
    ensures r.Some? ==>
      (r.value <==>
        Expand(p, src.doc).value != {} || exists k :: k in Entries(old(target.annotation)) && IsExpansionOf(k, p))
    ensures r.Some? ==> target.annotation == Parked(old(target.annotation), p, src.doc)
  {
    hide Expand, GetValue, IsExpansionOf;
    var expanded := Expand(p, src.doc);
    if expanded.None? {
      return None;
    }
    var kept, staleRemoved := DeleteStale(Entries(target.annotation), p);
    var fieldMap := StoreCurrent(kept, expanded.value, src.doc);
    if expanded.value == {} && !staleRemoved {
      return Some(false);
    }
    target.annotation := Some(fieldMap);
    return Some(true);
  }

  /** The annotation's entries under some paths are the values a document has there. */
  ghost predicate TakenFrom(m: FieldMap, ps: seq<Path>, v: Json) {
    forall e: ConcretePath <- m | Covered(e, ps) :: e != [] && e[0].Fld? && GetValue(v, e) == Some(m[e])
  }

  ghost predicate Restored(d: Json, v: Json, e: ConcretePath) {
    GetValue(v, e).Some? && GetValue(d, e) == GetValue(v, e)
  }

  /** Setting some of an annotation's values one after the other. */
  function SetAll(d: Json, order: seq<ConcretePath>, m: FieldMap): Option<Json>
    requires forall e <- order :: e in m
  {
    if order == [] then Some(d)
    else
      match SetAll(d, order[..|order| - 1], m)
      case None => None
      case Some(x) => SetValue(x, order[|order| - 1], m[order[|order| - 1]])
  }

  /** The entries that are restored under a path. */
  predicate Chosen(m: FieldMap, p: Path, e: ConcretePath) {
    e in m && IsExpansionOf(e, p) && !m[e].Null?
  }

  ghost predicate Distinct(order: seq<ConcretePath>) {
    forall i, j | 0 <= i < j < |order| :: order[i] != order[j]
  }

  /** One conversion back: exactly the chosen values are set, in some order. */
  ghost predicate Restores(a: Option<FieldMap>, p: Path, d: Json, d': Json) {
    if a.None? then d' == d
    else
      exists order: seq<ConcretePath> ::
        (forall e :: e in order <==> Chosen(a.value, p, e)) && Distinct(order) && SetAll(d, order, a.value) == Some(d')
  }

  /** A conversion back that fails: some chosen values are set and the next one cannot be. */
  ghost predicate CannotRestore(a: Option<FieldMap>, p: Path, d: Json, d': Json) {
    a.Some? &&
    exists order: seq<ConcretePath>, e ::
      && (forall f <- order :: Chosen(a.value, p, f)) && Distinct(order) && SetAll(d, order, a.value) == Some(d')
      && Chosen(a.value, p, e) && e !in order && SetValue(d', e, a.value[e]).None?
  }

  lemma SetOneMore(d: Json, order: seq<ConcretePath>, e: ConcretePath, m: FieldMap)
    requires e in m && forall f <- order :: f in m
    ensures SetAll(d, order + [e], m) ==
      match SetAll(d, order, m) { case None => None case Some(x) => SetValue(x, e, m[e]) }
  {
    assert (order + [e])[..|order|] == order;
  }

  /** convertFromAnnotation for one registered path, over the annotation in any order. When the values
      come from a document the target matches, every non-null one under the path is restored and
      what agreed before still does. */
  method ConvertFromAnnotation(p: Path, src: Paved, target: Paved, ghost v: Json) returns (r: Option<bool>)
    requires src != target
    modifies target`doc
    ensures r.Some? ==> r.value == src.annotation.Some? && Restores(src.annotation, p, old(target.doc), target.doc)
    ensures r.None? ==> CannotRestore(src.annotation, p, old(target.doc), target.doc)
    ensures TakenFrom(Entries(src.annotation), [p], v) && Matches(old(target.doc), v) ==>
      && r.Some? && Matches(target.doc, v)
      && (forall e <- Entries(src.annotation) | IsExpansionOf(e, p) && !Entries(src.annotation)[e].Null? ::
            Restored(target.doc, v, e))
      && (forall e :: Restored(old(target.doc), v, e) ==> Restored(target.doc, v, e))
  {
    if src.annotation.None? {
      return Some(false);
    }
    var m := src.annotation.value;
    ghost var before := target.doc;
    ghost var order: seq<ConcretePath> := [];
    ghost var sound := TakenFrom(m, [p], v) && Matches(target.doc, v);
    var todo := m.Keys;
    while todo != {}
      invariant todo <= m.Keys
      invariant forall e :: e in order <==> Chosen(m, p, e) && e !in todo
      invariant Distinct(order) && SetAll(before, order, m) == Some(target.doc)
      invariant sound ==> Matches(target.doc, v)
      invariant sound ==> forall e <- order :: Restored(target.doc, v, e)
      invariant sound ==> forall e :: Restored(before, v, e) ==> Restored(target.doc, v, e)
    {
      hide SetValue, SetAll, TakenFrom, Restored, Matches, Covered, IsExpansionOf;
      var e :| e in todo;
      todo := todo - {e};
      if IsExpansionOf(e, p) && !m[e].Null? {
        if sound {
          RestoreOne(m, p, before, target.doc, v, order, e);
        }
        var set' := SetValue(target.doc, e, m[e]);
        if set'.None? {
          return None;
        }
        SetOneMore(before, order, e, m);
        order := order + [e];
        target.doc := set'.value;
      }
    }
    return Some(true);
  }

  /** Setting one more value keeps what the values set before have restored. */
  lemma RestoreOne(m: FieldMap, p: Path, before: Json, d: Json, v: Json, order: seq<ConcretePath>, e: ConcretePath)
    requires TakenFrom(m, [p], v) && Matches(d, v) && Chosen(m, p, e)
    requires forall f <- order :: Restored(d, v, f)
    requires forall f :: Restored(before, v, f) ==> Restored(d, v, f)
    ensures var d' := SetValue(d, e, m[e]);
      && d'.Some? && Matches(d'.value, v)
      && (forall f <- order + [e] :: Restored(d'.value, v, f))
      && (forall f :: Restored(before, v, f) ==> Restored(d'.value, v, f))
  {
    hide SetValue, Matches, IsExpansionOf, GetValue;
    assert Covered(e, [p]) by { assert [p][0] == p; }
    SetRestores(d, v, e);
    forall f | Restored(d, v, f)
      ensures Restored(SetValue(d, e, m[e]).value, v, f)
    {
      SetKeeps(d, v, e, f);
    }
  }

  /** The conversions of RoundTrip from the version with the fields to the one without. */
  method RunToAnnotation(ps: seq<Path>, src: Paved, target: Paved) returns (ok: bool)
    requires src != target
    modifies target`annotation
    ensures ok <==> forall i | 0 <= i < |ps| :: Expand(ps[i], src.doc).Some?
    ensures ok ==> target.annotation == ParkedAll(old(target.annotation), ps, src.doc)
  {
    for i := 0 to |ps|
      invariant forall j | 0 <= j < i :: Expand(ps[j], src.doc).Some?
      invariant target.annotation == ParkedAll(old(target.annotation), ps[..i], src.doc)
    {
      var r := ConvertToAnnotation(ps[i], src, target);
      if r.None? {
        return false;
      }
      assert ps[..i + 1][..i] == ps[..i];
    }
    assert ps[..|ps|] == ps;
    return true;
  }

  /** The documents a chain of conversions back goes through, one for each path, from the first. */
  ghost predicate Chain(a: Option<FieldMap>, ps: seq<Path>, docs: seq<Json>) {
    docs != [] && |docs| <= |ps| + 1 && forall i | 0 <= i < |docs| - 1 :: Restores(a, ps[i], docs[i], docs[i + 1])
  }

  /** A chain runs from one document to another, or stops at the first conversion that fails. */
  ghost predicate Ends(a: Option<FieldMap>, ps: seq<Path>, docs: seq<Json>, from: Json, to: Json, ok: bool) {
    && docs != [] && docs[0] == from
    && if ok then |docs| == |ps| + 1 && docs[|ps|] == to
       else |docs| <= |ps| && CannotRestore(a, ps[|docs| - 1], docs[|docs| - 1], to)
  }

  /** The conversions of RoundTrip back to the version with the fields. */
  method RunFromAnnotation(ps: seq<Path>, src: Paved, target: Paved, ghost v: Json) returns (ok: bool)
    requires src != target
    modifies target`doc
    ensures exists docs ::
      && Chain(src.annotation, ps, docs)
      && Ends(src.annotation, ps, docs, old(target.doc), target.doc, ok)
    ensures TakenFrom(Entries(src.annotation), ps, v) && Matches(old(target.doc), v) ==>
      ok && forall e <- Entries(src.annotation) | Covered(e, ps) && !Entries(src.annotation)[e].Null? ::
        Restored(target.doc, v, e)
  {
    hide IsExpansionOf, Matches, Restored, Restores, CannotRestore;
    ghost var m := Entries(src.annotation);
    ghost var sound := TakenFrom(m, ps, v) && Matches(target.doc, v);
    ghost var docs := [target.doc];
    for i := 0 to |ps|
      invariant |docs| == i + 1 && docs[0] == old(target.doc) && docs[i] == target.doc &&
        Chain(src.annotation, ps, docs)
      invariant sound ==> Matches(target.doc, v)
      invariant sound ==> forall e <- m | Covered(e, ps[..i]) && !m[e].Null? :: Restored(target.doc, v, e)
    {
      if sound {
        OnePath(m, ps, i, v);
      }
      var r := ConvertFromAnnotation(ps[i], src, target, v);
      if r.None? {
        return false;
      }
      docs := docs + [target.doc];
      if sound {
        forall e <- m | Covered(e, ps[..i + 1]) && !m[e].Null?
          ensures Restored(target.doc, v, e)
        {
          CoveredStep(e, ps[..i + 1]);
          assert ps[..i + 1][..i] == ps[..i];
        }
      }
    }
    assert ps[..|ps|] == ps;
    return true;
  }

  lemma OnePath(m: FieldMap, ps: seq<Path>, i: nat, v: Json)
    requires TakenFrom(m, ps, v) && i < |ps|
    ensures TakenFrom(m, [ps[i]], v)
  {
    hide GetValue, IsExpansionOf;
    forall e <- m | Covered(e, [ps[i]])
      ensures Covered(e, ps)
    {
      assert IsExpansionOf(e, ps[i]);
    }
  }

  /** Paths start at a field, as every registered path does. */
  predicate StartAtFields(ps: seq<Path>) {
    forall i | 0 <= i < |ps| :: ps[i] != [] && ps[i][0].F?
  }

  /** After the chain, the entries under its paths are the source's, so they can be restored. */
  lemma ParkedIsTakenFrom(a: Option<FieldMap>, ps: seq<Path>, v: Json)
    requires StartAtFields(ps) && forall i | 0 <= i < |ps| :: Expand(ps[i], v).Some?
    ensures TakenFrom(Entries(ParkedAll(a, ps, v)), ps, v)
  {
    var m := Entries(ParkedAll(a, ps, v));
    forall e: ConcretePath <- m | Covered(e, ps)
      ensures e != [] && e[0].Fld? && GetValue(v, e) == Some(m[e])
    {
      ParkedAllIsExact(a, ps, v, e);
      var i :| 0 <= i < |ps| && IsExpansionOf(e, ps[i]);
      assert SegmentMatches(e[0], ps[i][0]);
    }
  }

  /** What the chain back restores is every non-null value at an expansion of a path. */
  lemma ExpansionsRestored(a: Option<FieldMap>, ps: seq<Path>, v: Json, d: Json, p: Path, e: ConcretePath)
    requires forall i | 0 <= i < |ps| :: Expand(ps[i], v).Some?
    requires p in ps && e in Expand(p, v).value
    ensures GetValue(v, e).Some?
    ensures var m := Entries(ParkedAll(a, ps, v));
            (forall f <- m | Covered(f, ps) && !m[f].Null? :: Restored(d, v, f)) ==>
              GetValue(v, e) != Some(Null) ==> Restored(d, v, e)
  {
    hide ParkedAll, GetValue, IsExpansionOf, Restored;
    ExpandIsExact(p, v, e);
    var i :| 0 <= i < |ps| && ps[i] == p;
    assert Covered(e, ps);
    ParkedAllIsExact(a, ps, v, e);
  }

  /** The annotation round trip. A newer object is converted to an older version, which inherits its
      annotation, and that one to a newer version again, whose document has containers of the same
      kinds. Whatever annotation there was, and whether or not the registered paths overlap, the
      non-null value at every expansion of every path is restored. */
  method ThereAndBack(ps: seq<Path>, newer: Paved, older: Paved, again: Paved) returns (ok: bool)
    requires newer != older && older != again && newer != again
    requires StartAtFields(ps) && older.annotation == newer.annotation && Matches(again.doc, newer.doc)
    modifies older`annotation, again`doc
    ensures ok <==> forall i | 0 <= i < |ps| :: Expand(ps[i], newer.doc).Some?
    ensures ok ==> forall i, e | 0 <= i < |ps| && e in Expand(ps[i], newer.doc).value ::
      GetValue(newer.doc, e).Some? && (GetValue(newer.doc, e) != Some(Null) ==> Restored(again.doc, newer.doc, e))
  {
    hide Chain, Ends, Matches, Restored, TakenFrom, Covered, ParkedAll, GetValue, Expand;
    ok := RunToAnnotation(ps, newer, older);
    if ok {
      ParkedIsTakenFrom(newer.annotation, ps, newer.doc);
      ok := RunFromAnnotation(ps, older, again, newer.doc);
      forall i, e | 0 <= i < |ps| && e in Expand(ps[i], newer.doc).value
        ensures GetValue(newer.doc, e).Some?
        ensures GetValue(newer.doc, e) != Some(Null) ==> Restored(again.doc, newer.doc, e)
      {
        ExpansionsRestored(newer.annotation, ps, newer.doc, again.doc, ps[i], e);
      }
    }
  }
}
