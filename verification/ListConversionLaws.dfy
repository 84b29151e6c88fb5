/** What the conversion means for a schema: the sorted sequence of path rewrites is one
    structural recursion, singleton lists and embedded objects are inverse shapes, and the
    error is raised exactly for a registered list of several items. */
module ListConversionLaws {
  import opened JsonDocument
  import opened ListConversion
  import opened SchemaTraversal
  import opened Wrappers

  // ------------------------------------------------------------ the path order

  predicate FieldPaths(ps: seq<Path>) {
    forall i | 0 <= i < |ps| :: ps[i] != [] && ps[i][0].F?
  }

  predicate WildcardPaths(ps: seq<Path>) {
    forall i | 0 <= i < |ps| :: ps[i] != [] && ps[i][0] == W
  }

  /** No path comes after one it must precede: parents first to singleton lists, children first back.
      `p <= q` is the prefix order, so a path is in conflict with itself and none occurs twice. */
  ghost predicate Ordered(mode: Mode, ps: seq<Path>) {
    ps == [] ||
    (Ordered(mode, ps[1..]) &&
     forall q <- ps[1..] :: if mode == ToSingletonList then !(q <= ps[0]) else !(ps[0] <= q))
  }

  lemma {:induction false} RenderFromPrefix(p: Path, r: Path)
    ensures RenderFrom(p + r) == RenderFrom(p) + RenderFrom(r)
    decreases |p|
  {
    if p == [] {
      assert p + r == r;
    } else {
      assert (p + r)[1..] == p[1..] + r;
      RenderFromPrefix(p[1..], r);
    }
  }

  lemma {:induction false} ExtensionIsGreater(a: string, b: string)
    requires b != []
    ensures StringLess(a, a + b)
    decreases |a|
  {
    if a != [] {
      assert (a + b)[1..] == a[1..] + b;
      ExtensionIsGreater(a[1..], b);
    }
  }

  /** A parent sorts before its descendants, whatever other names sort in between. */
  lemma ParentSortsFirst(p: Path, q: Path)
    requires p != [] && p[0].F? && p < q
    ensures StringLess(Render(p), Render(q))
  {
    var r := q[|p|..];
    assert q == p + r;
    RenderFromPrefix(p, r);
    assert RenderFrom(r) != [];
    assert Render(q) == Render(p) + RenderFrom(r);
    ExtensionIsGreater(Render(p), RenderFrom(r));
  }

  ghost predicate NoDuplicates<T>(s: seq<T>) {
    forall i, j | 0 <= i < j < |s| :: s[i] != s[j]
  }

  lemma {:induction false} SortedIsOrdered(mode: Mode, ps: seq<Path>)
    requires Sorted(mode, ps) && NoDuplicates(ps) && FieldPaths(ps)
    ensures Ordered(mode, ps)
    decreases |ps|
  {
    if ps != [] {
      SortedIsOrdered(mode, ps[1..]);
      forall q <- ps[1..]
        ensures if mode == ToSingletonList then !(q <= ps[0]) else !(ps[0] <= q)
      {
        var j :| 1 <= j < |ps| && ps[j] == q;
        assert Before(mode, ps[0], ps[j]);
        assert q != ps[0];
        if q < ps[0] { ParentSortsFirst(q, ps[0]); }
        if ps[0] < q { ParentSortsFirst(ps[0], q); }
      }
    }
  }

  lemma MultisetKeepsDistinctness<T>(a: seq<T>, b: seq<T>)
    requires multiset(a) == multiset(b) && NoDuplicates(a)
    ensures NoDuplicates(b)
  {
    DistinctMultiplicity(a);
    forall i, j | 0 <= i < j < |b|
      ensures b[i] != b[j]
    {
      assert b == b[..i] + [b[i]] + b[i + 1..j] + [b[j]] + b[j + 1..];
      assert multiset(b)[b[i]] <= 1;
    }
  }

  lemma {:induction false} DistinctMultiplicity<T>(a: seq<T>)
    requires NoDuplicates(a)
    ensures forall x :: multiset(a)[x] <= 1
    decreases |a|
  {
    if a != [] {
      DistinctMultiplicity(a[1..]);
      assert a == [a[0]] + a[1..];
      assert a[0] !in a[1..];
    }
  }

  // ------------------------------------------------- splitting a list of paths

  /** What the paths through segment `s` say below it, in order. */
  function Through(ps: seq<Path>, s: Segment): seq<Path> {
    if ps == [] then []
    else (if ps[0] != [] && ps[0][0] == s then [ps[0][1..]] else []) + Through(ps[1..], s)
  }

  lemma {:induction false} ThroughMember(ps: seq<Path>, s: Segment, q: Path)
    ensures q in Through(ps, s) <==> [s] + q in ps
    decreases |ps|
  {
    if ps != [] {
      ThroughMember(ps[1..], s, q);
      assert ps == [ps[0]] + ps[1..];
      if ps[0] == [s] + q {
        assert ps[0][1..] == q;
      }
      if ps[0] != [] && ps[0][0] == s && ps[0][1..] == q {
        assert ps[0] == [s] + q;
      }
    }
  }

  lemma {:induction false} ThroughOrdered(mode: Mode, ps: seq<Path>, s: Segment)
    requires Ordered(mode, ps)
    ensures Ordered(mode, Through(ps, s))
    decreases |ps|
  {
    if ps != [] {
      ThroughOrdered(mode, ps[1..], s);
      if ps[0] != [] && ps[0][0] == s {
        var p := ps[0][1..];
        assert ps[0] == [s] + p;
        assert Through(ps, s) == [p] + Through(ps[1..], s);
        assert Through(ps, s)[1..] == Through(ps[1..], s);
        forall q <- Through(ps[1..], s)
          ensures if mode == ToSingletonList then !(q <= p) else !(p <= q)
        {
          ThroughMember(ps[1..], s, q);
          assert [s] + q in ps[1..];
          if q <= p { assert [s] + q <= ps[0]; }
          if p <= q { assert ps[0] <= [s] + q; }
        }
        assert Ordered(mode, Through(ps, s)) by {
          var ts := Through(ps, s);
          assert ts[0] == p;
          assert forall q <- ts[1..] :: if mode == ToSingletonList then !(q <= ts[0]) else !(ts[0] <= q);
        }
      } else {
        assert Through(ps, s) == Through(ps[1..], s);
      }
    }
  }

  lemma {:induction false} ConvertAllAppend(mode: Mode, a: seq<Path>, b: seq<Path>, v: Json)
    ensures ConvertAll(mode, a + b, v) ==
            match ConvertAll(mode, a, v) case None => None case Some(x) => ConvertAll(mode, b, x)
    decreases |a|
  {
    if a == [] {
      assert a + b == b;
    } else {
      assert (a + b)[1..] == a[1..] + b;
      match MapAt(mode, a[0], v)
      case None =>
      case Some(x) => ConvertAllAppend(mode, a[1..], b, x);
    }
  }

  /** Field paths act on each field of an object by themselves. */
  function FieldResults(mode: Mode, ps: seq<Path>, m: map<string, Json>): map<string, Option<Json>> {
    map k | k in m :: ConvertAll(mode, Through(ps, F(k)), m[k])
  }

  function ObjResult(m: map<string, Option<Json>>): Option<Json> {
    match AllSomeMap(m) case None => None case Some(x) => Some(Obj(x))
  }

  lemma ThroughSkips(ps: seq<Path>, st: Segment)
    requires ps != [] && ps[0] != [] && ps[0][0] != st
    ensures Through(ps, st) == Through(ps[1..], st)
  {}

  lemma ThroughTakes(ps: seq<Path>, st: Segment)
    requires ps != [] && ps[0] != [] && ps[0][0] == st
    ensures Through(ps, st) == [ps[0][1..]] + Through(ps[1..], st)
  {}

  lemma ConvertAllStep(mode: Mode, p: Path, ps: seq<Path>, v: Json)
    ensures ConvertAll(mode, [p] + ps, v) ==
      match MapAt(mode, p, v) { case None => None case Some(x) => ConvertAll(mode, ps, x) }
  {
    hide MapAt;
    assert ([p] + ps)[1..] == ps;
  }

  lemma FieldMissing(mode: Mode, ps: seq<Path>, m: map<string, Json>)
    requires ps != [] && ps[0] != [] && ps[0][0].F? && ps[0][0].name !in m
    ensures FieldResults(mode, ps, m) == FieldResults(mode, ps[1..], m)
  {
    hide ConvertAll, Through;
    forall k <- m
      ensures Through(ps, F(k)) == Through(ps[1..], F(k))
    {
      ThroughSkips(ps, F(k));
    }
  }

  lemma FieldConverted(mode: Mode, ps: seq<Path>, m: map<string, Json>, n: string, x: Json)
    requires ps != [] && ps[0] != [] && ps[0][0] == F(n) && n in m
    requires MapAt(mode, ps[0][1..], m[n]) == Some(x)
    ensures FieldResults(mode, ps, m) == FieldResults(mode, ps[1..], m[n := x])
  {
    hide ConvertAll, Through, MapAt;
    ThroughTakes(ps, F(n));
    ConvertAllStep(mode, ps[0][1..], Through(ps[1..], F(n)), m[n]);
    forall k <- m | k != n
      ensures Through(ps, F(k)) == Through(ps[1..], F(k))
    {
      ThroughSkips(ps, F(k));
    }
  }

  lemma {:induction false} ObjectFieldwise(mode: Mode, ps: seq<Path>, m: map<string, Json>)
    requires FieldPaths(ps)
    ensures ConvertAll(mode, ps, Obj(m)) == ObjResult(FieldResults(mode, ps, m))
    decreases |ps|
  {
    if ps == [] {
      assert AllSomeMap(FieldResults(mode, ps, m)).value == m;
    } else {
      var n := ps[0][0].name;
      if n !in m {
        FieldMissing(mode, ps, m);
        ObjectFieldwise(mode, ps[1..], m);
      } else {
        match MapAt(mode, ps[0][1..], m[n])
        case None =>
          assert Through(ps, F(n)) == [ps[0][1..]] + Through(ps[1..], F(n));
          assert FieldResults(mode, ps, m)[n].None?;
        case Some(x) =>
          FieldConverted(mode, ps, m, n, x);
          hide FieldResults, AllSomeMap, ObjResult;
          ObjectFieldwise(mode, ps[1..], m[n := x]);
      }
    }
  }

  /** Wildcard paths act on each item of a list by itself. */
  function ItemResults(mode: Mode, ps: seq<Path>, vs: seq<Json>): seq<Option<Json>> {
    seq(|vs|, i requires 0 <= i < |vs| => ConvertAll(mode, Through(ps, W), vs[i]))
  }

  function ArrResult(vs: seq<Option<Json>>): Option<Json> {
    match AllSome(vs) case None => None case Some(x) => Some(Arr(x))
  }

  lemma {:induction false} ListItemwise(mode: Mode, ps: seq<Path>, vs: seq<Json>)
    requires WildcardPaths(ps)
    ensures ConvertAll(mode, ps, Arr(vs)) == ArrResult(ItemResults(mode, ps, vs))
    decreases |ps|
  {
    if ps == [] {
      assert AllSome(ItemResults(mode, ps, vs)).value == vs;
    } else {
      assert Through(ps, W) == [ps[0][1..]] + Through(ps[1..], W);
      var step := seq(|vs|, i requires 0 <= i < |vs| => MapAt(mode, ps[0][1..], vs[i]));
      if i :| 0 <= i < |vs| && step[i].None? {
        assert ItemResults(mode, ps, vs)[i].None?;
      } else {
        var xs := AllSome(step).value;
        assert MapAt(mode, ps[0], Arr(vs)) == Some(Arr(xs));
        ListItemwise(mode, ps[1..], xs);
        assert ItemResults(mode, ps, vs) == ItemResults(mode, ps[1..], xs);
      }
    }
  }

  /** Wildcard paths act on each value of an object too. */
  function ValueResults(mode: Mode, ps: seq<Path>, m: map<string, Json>): map<string, Option<Json>> {
    map k | k in m :: ConvertAll(mode, Through(ps, W), m[k])
  }

  lemma ValueFails(mode: Mode, ps: seq<Path>, m: map<string, Json>, k: string)
    requires ps != [] && ps[0] != [] && ps[0][0] == W && k in m && MapAt(mode, ps[0][1..], m[k]).None?
    ensures ObjResult(ValueResults(mode, ps, m)).None?
  {
    hide ConvertAll, Through, MapAt;
    ThroughTakes(ps, W);
    ConvertAllStep(mode, ps[0][1..], Through(ps[1..], W), m[k]);
    assert ValueResults(mode, ps, m)[k].None?;
  }

  lemma ValuesConverted(mode: Mode, ps: seq<Path>, m: map<string, Json>, xs: map<string, Json>)
    requires ps != [] && ps[0] != [] && ps[0][0] == W && xs.Keys == m.Keys
    requires forall k <- m :: MapAt(mode, ps[0][1..], m[k]) == Some(xs[k])
    ensures ValueResults(mode, ps, m) == ValueResults(mode, ps[1..], xs)
  {
    hide ConvertAll, Through, MapAt;
    ThroughTakes(ps, W);
    forall k <- m
      ensures ValueResults(mode, ps, m)[k] == ValueResults(mode, ps[1..], xs)[k]
    {
      ConvertAllStep(mode, ps[0][1..], Through(ps[1..], W), m[k]);
    }
  }

  lemma {:induction false} MapValuewise(mode: Mode, ps: seq<Path>, m: map<string, Json>)
    requires WildcardPaths(ps)
    ensures ConvertAll(mode, ps, Obj(m)) == ObjResult(ValueResults(mode, ps, m))
    decreases |ps|
  {
    if ps == [] {
      assert AllSomeMap(ValueResults(mode, ps, m)).value == m;
    } else {
      var step := map k | k in m :: MapAt(mode, ps[0][1..], m[k]);
      assert MapAt(mode, ps[0], Obj(m)) == ObjResult(step);
      hide MapAt, Through, ValueResults;
      if k :| k in m && step[k].None? {
        ValueFails(mode, ps, m, k);
      } else {
        var xs := AllSomeMap(step).value;
        ValuesConverted(mode, ps, m, xs);
        MapValuewise(mode, ps[1..], xs);
      }
    }
  }

  // --------------------------------------------------------------- the shapes

  /** Where embedded objects stand (CRD) and where singleton lists do (Terraform). Any field may
      be absent and unknown fields are allowed. */
  datatype Side = CRD | TF

  function SourceSide(mode: Mode): Side { if mode == ToSingletonList then CRD else TF }

  ghost predicate Shaped(side: Side, r: Resource, v: Json)
    decreases r
  {
    v.Obj? && forall k <- v.fields | k in r.entries :: ShapedEntry(side, r.entries[k], v.fields[k])
  }

  ghost predicate ShapedEntry(side: Side, e: Entry, v: Json)
    decreases e
  {
    e.Plain? ||
    if Embeddable(e) then
      if side == CRD then Shaped(side, e.elem, v)
      else v.Arr? && forall i | 0 <= i < |v.elems| :: Shaped(side, e.elem, v.elems[i])
    else
      match e.ty
      case TypeObject => Shaped(side, e.elem, v)
      case TypeMap => v.Obj? && forall k <- v.fields :: Shaped(side, e.elem, v.fields[k])
      case _ => v.Arr? && forall i | 0 <= i < |v.elems| :: Shaped(side, e.elem, v.elems[i])
  }

  /** The conversion as one recursion over the schema; `None` is the error. */
  function Converted(mode: Mode, r: Resource, v: Json): Option<Json>
    requires Shaped(SourceSide(mode), r, v)
    decreases r, 1
  {
    ObjResult(ConvertedFields(mode, r, v.fields))
  }

  function ConvertedFields(mode: Mode, r: Resource, m: map<string, Json>): (xs: map<string, Option<Json>>)
    requires forall k <- m | k in r.entries :: ShapedEntry(SourceSide(mode), r.entries[k], m[k])
    ensures xs.Keys == m.Keys
    decreases r, 0
  {
    map k | k in m :: if k in r.entries then ConvertedEntry(mode, r.entries[k], m[k]) else Some(m[k])
  }

  function ConvertedEntry(mode: Mode, e: Entry, v: Json): Option<Json>
    requires ShapedEntry(SourceSide(mode), e, v)
    decreases e
  {
    if e.Plain? then Some(v)
    else if Embeddable(e) && mode == ToSingletonList then
      match Converted(mode, e.elem, v)
      case None => None
      case Some(x) => Some(Arr([x]))
    else if e.ty == TypeObject then
      Converted(mode, e.elem, v)
    else if e.ty == TypeMap then
      ObjResult(ConvertedValues(mode, e.elem, v.fields))
    else
      var items := ArrResult(ConvertedItems(mode, e.elem, v.elems));
      if items.None? then None
      else if Embeddable(e) then ConvertOne(mode, items.value)
      else items
  }

  function ConvertedItems(mode: Mode, r: Resource, vs: seq<Json>): (xs: seq<Option<Json>>)
    requires forall i | 0 <= i < |vs| :: Shaped(SourceSide(mode), r, vs[i])
    ensures |xs| == |vs|
    decreases r, 2
  {
    seq(|vs|, i requires 0 <= i < |vs| => Converted(mode, r, vs[i]))
  }

  function ConvertedValues(mode: Mode, r: Resource, m: map<string, Json>): (xs: map<string, Option<Json>>)
    requires forall k <- m :: Shaped(SourceSide(mode), r, m[k])
    ensures xs.Keys == m.Keys
    decreases r, 2
  {
    map k | k in m :: Converted(mode, r, m[k])
  }

  // ------------------------------------- the sorted paths compute the recursion

  ghost predicate Covers(ps: seq<Path>, paths: set<Path>) {
    forall p: Path :: p in ps <==> p in paths
  }

  /** An empty path is first going to lists and last coming back. */
  lemma SelfFirst(ps: seq<Path>)
    requires Ordered(ToSingletonList, ps) && [] in ps
    ensures ps[0] == [] && [] !in ps[1..]
  {
    assert [] <= ps[0];
    assert forall q <- ps[1..] :: q != [];
    assert ps == [ps[0]] + ps[1..];
  }

  lemma {:induction false} SelfLast(ps: seq<Path>)
    requires Ordered(ToEmbeddedObject, ps) && [] in ps
    ensures ps[|ps| - 1] == [] && [] !in ps[..|ps| - 1]
    decreases |ps|
  {
    if |ps| > 1 {
      assert ps[1] in ps[1..];
      assert ps[0] != [];
      assert ps == [ps[0]] + ps[1..];
      SelfLast(ps[1..]);
      assert ps[..|ps| - 1] == [ps[0]] + ps[1..][..|ps| - 2];
    }
  }

  lemma NonEmptyHasMember(ps: seq<Path>)
    ensures ps != [] ==> exists q: Path :: q in ps
  {
    if ps != [] {
      assert ps[0] in ps;
    }
  }

  lemma {:induction false} OrderedPrefix(mode: Mode, ps: seq<Path>, n: nat)
    requires Ordered(mode, ps) && n <= |ps|
    ensures Ordered(mode, ps[..n])
    decreases n
  {
    if n > 0 {
      OrderedPrefix(mode, ps[1..], n - 1);
      assert ps[..n][1..] == ps[1..][..n - 1];
      assert forall q <- ps[..n][1..] :: q in ps[1..];
    }
  }

  lemma CoversThrough(ps: seq<Path>, s: Segment, paths: set<Path>)
    requires forall p: Path :: p in paths <==> [s] + p in ps
    ensures Covers(Through(ps, s), paths)
  {
    forall p: Path
      ensures p in Through(ps, s) <==> p in paths
    {
      ThroughMember(ps, s, p);
    }
  }

  lemma EntryPathsBelow(e: Entry, q: Path)
    requires e.WithResource? && e.ty != TypeObject
    ensures [W] + q in EntryPaths(e) <==> q in ResourcePaths(e.elem)
    ensures q in EntryPaths(e) ==> q == [] || q[0] == W
    ensures [] in EntryPaths(e) <==> Embeddable(e)
  {
    if [W] + q in EntryPaths(e) {
      var p :| p in ResourcePaths(e.elem) && [W] + q == [W] + p;
      assert ([W] + q)[1..] == ([W] + p)[1..];
    }
  }

  lemma ResourcePathsThrough(r: Resource, k: string, q: Path)
    ensures [F(k)] + q in ResourcePaths(r) <==> k in r.entries && q in EntryPaths(r.entries[k])
    ensures q in ResourcePaths(r) ==> q != [] && q[0].F?
  {
    if [F(k)] + q in ResourcePaths(r) {
      var k', p :| k' in r.entries && p in EntryPaths(r.entries[k']) && [F(k)] + q == [F(k')] + p;
      assert ([F(k)] + q)[1..] == ([F(k')] + p)[1..];
      assert ([F(k)] + q)[0] == F(k');
    }
  }

  lemma CoveredFieldPaths(ps: seq<Path>, r: Resource)
    requires Covers(ps, ResourcePaths(r))
    ensures FieldPaths(ps)
  {
    forall i | 0 <= i < |ps|
      ensures ps[i] != [] && ps[i][0].F?
    {
      ResourcePathsThrough(r, "", ps[i]);
    }
  }

  lemma {:induction false} ResourceRefines(mode: Mode, r: Resource, ps: seq<Path>, v: Json)
    requires Ordered(mode, ps) && Covers(ps, ResourcePaths(r)) && Shaped(SourceSide(mode), r, v)
    ensures ConvertAll(mode, ps, v) == Converted(mode, r, v)
    decreases r, 0
  {
    CoveredFieldPaths(ps, r);
    ObjectFieldwise(mode, ps, v.fields);
    forall k <- v.fields
      ensures FieldResults(mode, ps, v.fields)[k] ==
              if k in r.entries then ConvertedEntry(mode, r.entries[k], v.fields[k]) else Some(v.fields[k])
    {
      var ts := Through(ps, F(k));
      forall q: Path
        ensures q in ts <==> k in r.entries && q in EntryPaths(r.entries[k])
      {
        ThroughMember(ps, F(k), q);
        ResourcePathsThrough(r, k, q);
      }
      if k in r.entries {
        ThroughOrdered(mode, ps, F(k));
        EntryRefines(mode, r.entries[k], ts, v.fields[k]);
      } else {
        NonEmptyHasMember(ts);
      }
    }
    assert FieldResults(mode, ps, v.fields) == ConvertedFields(mode, r, v.fields);
  }

  lemma {:induction false} ItemsRefine(mode: Mode, r: Resource, ps: seq<Path>, vs: seq<Json>)
    requires Ordered(mode, ps) && WildcardPaths(ps) && (forall p: Path :: p in ResourcePaths(r) <==> [W] + p in ps)
    requires forall i | 0 <= i < |vs| :: Shaped(SourceSide(mode), r, vs[i])
    ensures ConvertAll(mode, ps, Arr(vs)) ==
            ArrResult(ConvertedItems(mode, r, vs))
    decreases r, 1
  {
    ListItemwise(mode, ps, vs);
    ThroughOrdered(mode, ps, W);
    CoversThrough(ps, W, ResourcePaths(r));
    forall i | 0 <= i < |vs|
      ensures ConvertAll(mode, Through(ps, W), vs[i]) == Converted(mode, r, vs[i])
    {
      ResourceRefines(mode, r, Through(ps, W), vs[i]);
    }
    assert ItemResults(mode, ps, vs) == ConvertedItems(mode, r, vs);
  }

  lemma {:induction false} ValuesRefine(mode: Mode, r: Resource, ps: seq<Path>, m: map<string, Json>)
    requires Ordered(mode, ps) && WildcardPaths(ps) && (forall p: Path :: p in ResourcePaths(r) <==> [W] + p in ps)
    requires forall k <- m :: Shaped(SourceSide(mode), r, m[k])
    ensures ConvertAll(mode, ps, Obj(m)) == ObjResult(ConvertedValues(mode, r, m))
    decreases r, 1
  {
    MapValuewise(mode, ps, m);
    ThroughOrdered(mode, ps, W);
    CoversThrough(ps, W, ResourcePaths(r));
    forall k <- m
      ensures ConvertAll(mode, Through(ps, W), m[k]) == Converted(mode, r, m[k])
    {
      ResourceRefines(mode, r, Through(ps, W), m[k]);
    }
    assert ValueResults(mode, ps, m) == ConvertedValues(mode, r, m);
  }

  lemma {:induction false} EntryRefines(mode: Mode, e: Entry, ps: seq<Path>, v: Json)
    requires Ordered(mode, ps) && Covers(ps, EntryPaths(e)) && ShapedEntry(SourceSide(mode), e, v)
    ensures ConvertAll(mode, ps, v) == ConvertedEntry(mode, e, v)
    decreases e
  {
    if e.Plain? {
      NonEmptyHasMember(ps);
    } else if e.ty == TypeObject {
      forall p: Path ensures [] + p == p {}
      assert EntryPaths(e) == ResourcePaths(e.elem);
      ResourceRefines(mode, e.elem, ps, v);
    } else {
      forall q: Path
        ensures [W] + q in ps <==> q in ResourcePaths(e.elem)
        ensures q in ps ==> q == [] || q[0] == W
      {
        EntryPathsBelow(e, q);
      }
      EntryPathsBelow(e, []);
      if Embeddable(e) {
        EmbeddableRefines(mode, e, ps, v);
      } else {
        assert WildcardPaths(ps) by {
          forall i | 0 <= i < |ps| ensures ps[i] != [] && ps[i][0] == W { assert ps[i] in ps; }
        }
        if e.ty == TypeMap {
          ValuesRefine(mode, e.elem, ps, v.fields);
        } else {
          ItemsRefine(mode, e.elem, ps, v.elems);
        }
      }
    }
  }

  lemma {:induction false} EmbeddableRefines(mode: Mode, e: Entry, ps: seq<Path>, v: Json)
    requires Embeddable(e) && Ordered(mode, ps) && ShapedEntry(SourceSide(mode), e, v) && [] in ps
    requires forall q: Path :: [W] + q in ps <==> q in ResourcePaths(e.elem)
    requires forall q: Path :: q in ps ==> q == [] || q[0] == W
    ensures ConvertAll(mode, ps, v) == ConvertedEntry(mode, e, v)
    decreases e.elem, 2
  {
    hide Shaped, Converted, Covers, ResourcePaths;
    match mode
    case ToSingletonList =>
      SelfFirst(ps);
      var rest := ps[1..];
      assert ps == [[]] + rest;
      RestIsWildcard(ps, rest);
      ItemsRefine(mode, e.elem, rest, [v]);
      assert ConvertAll(mode, ps, v) == ConvertAll(mode, rest, Arr([v]));
      var items := ConvertedItems(mode, e.elem, [v]);
      assert items[0] == Converted(mode, e.elem, v);
      if items[0].Some? {
        assert AllSome(items).value == [items[0].value];
      }
    case ToEmbeddedObject =>
      SelfLast(ps);
      var rest := ps[..|ps| - 1];
      assert ps == rest + [[]];
      OrderedPrefix(mode, ps, |ps| - 1);
      RestIsWildcard(ps, rest);
      ItemsRefine(mode, e.elem, rest, v.elems);
      ConvertAllAppend(mode, rest, [[]], v);
  }

  lemma RestIsWildcard(ps: seq<Path>, rest: seq<Path>)
    requires (forall q: Path :: q in ps <==> q == [] || q in rest) && [] !in rest
    requires forall q: Path :: q in ps ==> q == [] || q[0] == W
    ensures WildcardPaths(rest)
    ensures forall q: Path :: [W] + q in ps <==> [W] + q in rest
  {
    forall i | 0 <= i < |rest|
      ensures rest[i] != [] && rest[i][0] == W
    {
      assert rest[i] in rest;
    }
  }

  // ------------------------------------------------------------------ the laws

  /** Every registered list below a Terraform-shaped value has a number of items between the bounds. */
  ghost predicate ListsWithin(lo: nat, hi: nat, r: Resource, w: Json)
    requires Shaped(TF, r, w)
    decreases r
  {
    forall k <- w.fields | k in r.entries :: EntryListsWithin(lo, hi, r.entries[k], w.fields[k])
  }

  ghost predicate EntryListsWithin(lo: nat, hi: nat, e: Entry, w: Json)
    requires ShapedEntry(TF, e, w)
    decreases e
  {
    e.Plain? ||
    match e.ty
    case TypeObject => ListsWithin(lo, hi, e.elem, w)
    case TypeMap => forall k <- w.fields :: ListsWithin(lo, hi, e.elem, w.fields[k])
    case _ =>
      && (Embeddable(e) ==> lo <= |w.elems| <= hi)
      && forall i | 0 <= i < |w.elems| :: ListsWithin(lo, hi, e.elem, w.elems[i])
  }

  /** To singleton lists, there is no error and the result is Terraform-shaped with one item a list. */
  lemma {:induction false} ToListsSucceeds(r: Resource, v: Json)
    requires Shaped(CRD, r, v)
    ensures var w := Converted(ToSingletonList, r, v);
            w.Some? && Shaped(TF, r, w.value) && ListsWithin(1, 1, r, w.value)
    decreases r, 0
  {
    forall k <- v.fields | k in r.entries
      ensures var w := ConvertedEntry(ToSingletonList, r.entries[k], v.fields[k]);
              w.Some? && ShapedEntry(TF, r.entries[k], w.value) && EntryListsWithin(1, 1, r.entries[k], w.value)
    {
      EntryToListsSucceeds(r.entries[k], v.fields[k]);
    }
  }

  lemma {:induction false} EntryToListsSucceeds(e: Entry, v: Json)
    requires ShapedEntry(CRD, e, v)
    ensures var w := ConvertedEntry(ToSingletonList, e, v);
            w.Some? && ShapedEntry(TF, e, w.value) && EntryListsWithin(1, 1, e, w.value)
    decreases e
  {
    hide Shaped, Converted, ListsWithin;
    if e.WithResource? {
      if Embeddable(e) || e.ty == TypeObject {
        ToListsSucceeds(e.elem, v);
      } else if e.ty == TypeMap {
        forall k <- v.fields { ToListsSucceeds(e.elem, v.fields[k]); }
      } else {
        forall i | 0 <= i < |v.elems| { ToListsSucceeds(e.elem, v.elems[i]); }
      }
    }
  }

  /** Back to embedded objects, the error is raised exactly when some registered list has several items. */
  lemma {:induction false} ToObjectsSucceedsIff(r: Resource, w: Json)
    requires Shaped(TF, r, w)
    ensures var v := Converted(ToEmbeddedObject, r, w);
            && (v.Some? <==> ListsWithin(0, 1, r, w))
            && (v.Some? ==> Shaped(CRD, r, v.value))
    decreases r, 0
  {
    forall k <- w.fields | k in r.entries
      ensures var v := ConvertedEntry(ToEmbeddedObject, r.entries[k], w.fields[k]);
              && (v.Some? <==> EntryListsWithin(0, 1, r.entries[k], w.fields[k]))
              && (v.Some? ==> ShapedEntry(CRD, r.entries[k], v.value))
    {
      EntryToObjectsSucceedsIff(r.entries[k], w.fields[k]);
    }
    var results := ConvertedFields(ToEmbeddedObject, r, w.fields);
    if k :| k in results && results[k].None? {
      assert !EntryListsWithin(0, 1, r.entries[k], w.fields[k]);
    } else {
      forall k <- w.fields | k in r.entries
        ensures EntryListsWithin(0, 1, r.entries[k], w.fields[k])
      {
        assert results[k].Some?;
      }
    }
  }

  lemma EmptyShaped(side: Side, r: Resource)
    ensures Shaped(side, r, Obj(map[]))
  {}

  lemma {:induction false} EntryToObjectsSucceedsIff(e: Entry, w: Json)
    requires ShapedEntry(TF, e, w)
    ensures var v := ConvertedEntry(ToEmbeddedObject, e, w);
            && (v.Some? <==> EntryListsWithin(0, 1, e, w))
            && (v.Some? ==> ShapedEntry(CRD, e, v.value))
    decreases e
  {
    hide Shaped, Converted, ListsWithin;
    if e.WithResource? {
      EmptyShaped(CRD, e.elem);
      if e.ty == TypeObject {
        ToObjectsSucceedsIff(e.elem, w);
      } else if e.ty == TypeMap {
        forall k <- w.fields { ToObjectsSucceedsIff(e.elem, w.fields[k]); }
        var results := ConvertedValues(ToEmbeddedObject, e.elem, w.fields);
        if k :| k in results && results[k].None? {
          assert !ListsWithin(0, 1, e.elem, w.fields[k]);
        }
      } else {
        forall i | 0 <= i < |w.elems| { ToObjectsSucceedsIff(e.elem, w.elems[i]); }
        var results := ConvertedItems(ToEmbeddedObject, e.elem, w.elems);
        if i :| 0 <= i < |results| && results[i].None? {
          assert !ListsWithin(0, 1, e.elem, w.elems[i]);
        } else {
          forall i | 0 <= i < |w.elems|
            ensures ListsWithin(0, 1, e.elem, w.elems[i])
          {
            assert results[i].Some?;
          }
        }
      }
    }
  }

  lemma ResultsFound(results: map<string, Option<Json>>, m: map<string, Json>)
    requires results.Keys == m.Keys && forall k <- m :: results[k] == Some(m[k])
    ensures ObjResult(results) == Some(Obj(m))
  {
    assert AllSomeMap(results).value == m;
  }

  /** A CRD-shaped value survives the trip to singleton lists and back. */
  lemma {:induction false} ObjectsRoundTrip(r: Resource, v: Json)
    requires Shaped(CRD, r, v)
    ensures var w := Converted(ToSingletonList, r, v);
            w.Some? && Shaped(TF, r, w.value) && Converted(ToEmbeddedObject, r, w.value) == Some(v)
    decreases r, 0
  {
    ToListsSucceeds(r, v);
    var w := Converted(ToSingletonList, r, v).value;
    forall k <- v.fields | k in r.entries
      ensures ConvertedEntry(ToEmbeddedObject, r.entries[k], w.fields[k]) == Some(v.fields[k])
    {
      EntryObjectsRoundTrip(r.entries[k], v.fields[k]);
    }
    ResultsFound(ConvertedFields(ToEmbeddedObject, r, w.fields), v.fields);
  }

  lemma {:induction false} EntryObjectsRoundTrip(e: Entry, v: Json)
    requires ShapedEntry(CRD, e, v)
    ensures var w := ConvertedEntry(ToSingletonList, e, v);
            w.Some? && ShapedEntry(TF, e, w.value) && ConvertedEntry(ToEmbeddedObject, e, w.value) == Some(v)
    decreases e
  {
    hide Shaped, Converted, ListsWithin;
    EntryToListsSucceeds(e, v);
    if e.WithResource? {
      var w := ConvertedEntry(ToSingletonList, e, v).value;
      if Embeddable(e) {
        ObjectsRoundTrip(e.elem, v);
        var items := ConvertedItems(ToEmbeddedObject, e.elem, w.elems);
        assert items == [Some(v)];
        assert AllSome(items).value == [v];
      } else if e.ty == TypeObject {
        ObjectsRoundTrip(e.elem, v);
      } else if e.ty == TypeMap {
        forall k <- v.fields { ObjectsRoundTrip(e.elem, v.fields[k]); }
        var back := ConvertedValues(ToEmbeddedObject, e.elem, w.fields);
        assert forall k <- v.fields :: back[k] == Some(v.fields[k]);
        assert AllSomeMap(back).value == v.fields;
      } else {
        forall i | 0 <= i < |v.elems| { ObjectsRoundTrip(e.elem, v.elems[i]); }
        var back := ConvertedItems(ToEmbeddedObject, e.elem, w.elems);
        assert forall i | 0 <= i < |v.elems| :: back[i] == Some(v.elems[i]);
        assert AllSome(back).value == v.elems;
      }
    }
  }

  /** A Terraform-shaped value that converts back to objects returns unchanged from the trip
      exactly when each registered list has one item; an empty list returns as one empty object. */
  lemma {:induction false} ListsRoundTripIff(r: Resource, w: Json)
    requires Shaped(TF, r, w) && ListsWithin(0, 1, r, w)
    ensures var v := Converted(ToEmbeddedObject, r, w);
            && v.Some? && Shaped(CRD, r, v.value)
            && (Converted(ToSingletonList, r, v.value) == Some(w) <==> ListsWithin(1, 1, r, w))
    decreases r, 0
  {
    ToObjectsSucceedsIff(r, w);
    var v := Converted(ToEmbeddedObject, r, w).value;
    ToListsSucceeds(r, v);
    var back := Converted(ToSingletonList, r, v).value;
    forall k <- w.fields | k in r.entries
      ensures back.fields[k] == w.fields[k] <==> EntryListsWithin(1, 1, r.entries[k], w.fields[k])
    {
      EntryListsRoundTripIff(r.entries[k], w.fields[k]);
    }
    if ListsWithin(1, 1, r, w) {
      assert back.fields == w.fields;
    }
  }

  lemma {:induction false} EntryListsRoundTripIff(e: Entry, w: Json)
    requires ShapedEntry(TF, e, w) && EntryListsWithin(0, 1, e, w)
    ensures var v := ConvertedEntry(ToEmbeddedObject, e, w);
            && v.Some? && ShapedEntry(CRD, e, v.value)
            && (ConvertedEntry(ToSingletonList, e, v.value) == Some(w) <==> EntryListsWithin(1, 1, e, w))
    decreases e
  {
    hide Shaped, Converted, ListsWithin;
    EntryToObjectsSucceedsIff(e, w);
    var v := ConvertedEntry(ToEmbeddedObject, e, w).value;
    EntryToListsSucceeds(e, v);
    if e.WithResource? {
      var back := ConvertedEntry(ToSingletonList, e, v).value;
      if e.ty == TypeObject {
        ListsRoundTripIff(e.elem, w);
      } else if e.ty == TypeMap {
        forall k <- w.fields
          ensures back.fields[k] == w.fields[k] <==> ListsWithin(1, 1, e.elem, w.fields[k])
        {
          ListsRoundTripIff(e.elem, w.fields[k]);
        }
        if EntryListsWithin(1, 1, e, w) {
          assert back.fields == w.fields;
        }
      } else if !Embeddable(e) {
        forall i | 0 <= i < |w.elems|
          ensures back.elems[i] == w.elems[i] <==> ListsWithin(1, 1, e.elem, w.elems[i])
        {
          ListsRoundTripIff(e.elem, w.elems[i]);
        }
        if EntryListsWithin(1, 1, e, w) {
          assert back.elems == w.elems;
        }
      } else if |w.elems| == 1 {
        ListsRoundTripIff(e.elem, w.elems[0]);
        var items := ConvertedItems(ToEmbeddedObject, e.elem, w.elems);
        assert ConvertedEntry(ToEmbeddedObject, e, w) == items[0];
        assert w.elems == [w.elems[0]];
      }
    }
  }

  // ------------------------------------------------------------ the conversion

  /** The paths the embedder registered for a resource, in any order. */
  ghost predicate RegisteredPaths(r: Resource, p: seq<Path>) {
    NoDuplicates(p) && Covers(p, ResourcePaths(r))
  }

  lemma SortedPathsQualify(mode: Mode, r: Resource, p: seq<Path>)
    requires RegisteredPaths(r, p)
    ensures var ps := SortPaths(mode, p);
            Ordered(mode, ps) && Covers(ps, ResourcePaths(r))
  {
    var ps := SortPaths(mode, p);
    forall q: Path
      ensures q in ps <==> q in p
    {
      assert q in multiset(ps) <==> q in multiset(p);
    }
    CoveredFieldPaths(ps, r);
    MultisetKeepsDistinctness(p, ps);
    SortedIsOrdered(mode, ps);
  }

  /** The path-driven loop computes the structural conversion, for every schema and every order
      in which the registered paths come. */
  lemma ConversionRefinesRecursion(mode: Mode, r: Resource, p: seq<Path>, v: Json)
    requires RegisteredPaths(r, p) && Shaped(SourceSide(mode), r, v)
    ensures ConvertAll(mode, SortPaths(mode, p), v) == Converted(mode, r, v)
  {
    SortedPathsQualify(mode, r, p);
    ResourceRefines(mode, r, SortPaths(mode, p), v);
  }

  /** To singleton lists and back is the identity on every CRD-shaped value. */
  lemma ToListsAndBack(r: Resource, p: seq<Path>, v: Json)
    requires RegisteredPaths(r, p) && Shaped(CRD, r, v)
    ensures var w := ConvertAll(ToSingletonList, SortPaths(ToSingletonList, p), v);
            && w.Some? && Shaped(TF, r, w.value) && ListsWithin(1, 1, r, w.value)
            && ConvertAll(ToEmbeddedObject, SortPaths(ToEmbeddedObject, p), w.value) == Some(v)
  {
    ConversionRefinesRecursion(ToSingletonList, r, p, v);
    ToListsSucceeds(r, v);
    ObjectsRoundTrip(r, v);
    ConversionRefinesRecursion(ToEmbeddedObject, r, p, Converted(ToSingletonList, r, v).value);
  }

  /** To embedded objects, the conversion fails exactly when a registered list has several items,
      and what it yields converts back to the original exactly when every one has a single item. */
  lemma ToObjectsAndBack(r: Resource, p: seq<Path>, w: Json)
    requires RegisteredPaths(r, p) && Shaped(TF, r, w)
    ensures var v := ConvertAll(ToEmbeddedObject, SortPaths(ToEmbeddedObject, p), w);
            && (v.Some? <==> ListsWithin(0, 1, r, w))
            && (v.Some? ==> Shaped(CRD, r, v.value))
            && (v.Some? ==>
                  (ConvertAll(ToSingletonList, SortPaths(ToSingletonList, p), v.value) == Some(w) <==>
                   ListsWithin(1, 1, r, w)))
  {
    ConversionRefinesRecursion(ToEmbeddedObject, r, p, w);
    ToObjectsSucceedsIff(r, w);
    if ListsWithin(0, 1, r, w) {
      ListsRoundTripIff(r, w);
      ConversionRefinesRecursion(ToSingletonList, r, p, Converted(ToEmbeddedObject, r, w).value);
    }
  }

  /** An object of one entry converts by that entry. */
  lemma OneEntry(mode: Mode, k: string, e: Entry, x: Json)
    requires ShapedEntry(SourceSide(mode), e, x)
    ensures var r, v := Resource(map[k := e]), Obj(map[k := x]);
      Shaped(SourceSide(mode), r, v) &&
      Converted(mode, r, v) ==
        match ConvertedEntry(mode, e, x) { case None => None case Some(y) => Some(Obj(map[k := y])) }
  {
    hide ShapedEntry, ConvertedEntry, ObjResult;
    var r, m := Resource(map[k := e]), map[k := x];
    assert m[k] == x && r.entries[k] == e;
    assert ConvertedFields(mode, r, m) == map[k := ConvertedEntry(mode, e, x)];
    OneResult(k, ConvertedEntry(mode, e, x));
  }

  lemma OneResult(k: string, y: Option<Json>)
    ensures ObjResult(map[k := y]) == match y { case None => None case Some(z) => Some(Obj(map[k := z])) }
  {
    var results := map[k := y];
    assert results[k] == y;
    if y.Some? {
      assert AllSomeMap(results).value == map[k := y.value];
    }
  }

  lemma EmptyConverted(mode: Mode, r: Resource)
    ensures Shaped(SourceSide(mode), r, Obj(map[])) && Converted(mode, r, Obj(map[])) == Some(Obj(map[]))
  {
    hide ObjResult, ConvertedEntry;
    EmptyShaped(SourceSide(mode), r);
    assert ConvertedFields(mode, r, map[]) == map[];
    NoResults();
  }

  lemma NoResults()
    ensures ObjResult(map[]) == Some(Obj(map[]))
  {
    assert AllSomeMap(map[]).Some? && AllSomeMap(map[]).value.Keys == {};
  }

  /** The one list of this schema is empty in Terraform's state: it comes back with an empty object in it. */
  lemma EmptyListLost(p: seq<Path>) returns (r: Resource, w: Json)
    ensures r == Resource(map["rule" := WithResource(TypeList, 1, Resource(map[]))]) && w == Obj(map["rule" := Arr([])])
    ensures RegisteredPaths(r, p) ==>
      && ConvertAll(ToEmbeddedObject, SortPaths(ToEmbeddedObject, p), w) == Some(Obj(map["rule" := Obj(map[])]))
      && ConvertAll(ToSingletonList, SortPaths(ToSingletonList, p), Obj(map["rule" := Obj(map[])])) ==
           Some(Obj(map["rule" := Arr([Obj(map[])])]))
  {
    hide SortPaths, ConvertAll, RegisteredPaths, Shaped, Converted;
    var e := WithResource(TypeList, 1, Resource(map[]));
    r, w := Resource(map["rule" := e]), Obj(map["rule" := Arr([])]);
    OneEntry(ToEmbeddedObject, "rule", e, Arr([]));
    EmptyConverted(ToSingletonList, Resource(map[]));
    OneEntry(ToSingletonList, "rule", e, Obj(map[]));
    if RegisteredPaths(r, p) {
      ConversionRefinesRecursion(ToEmbeddedObject, r, p, w);
      ConversionRefinesRecursion(ToSingletonList, r, p, Obj(map["rule" := Obj(map[])]));
    }
  }
}
