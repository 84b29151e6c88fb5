/** The path-driven conversion between singleton lists and embedded objects of
    `pkg/config/conversion/list_conversion.go`, with the wildcard expansion it relies on. */
module ListConversion {
  import opened JsonDocument
  import opened Wrappers

  datatype Mode = ToSingletonList | ToEmbeddedObject

  // ------------------------------------------------------ paths and their order

  /** The field path syntax: a wildcard is bracketed, a field follows a period. */
  function RenderFrom(p: Path): string {
    if p == [] then ""
    else (match p[0] case F(n) => "." + n case W => "[*]") + RenderFrom(p[1..])
  }

  /** The leading period is trimmed. */
  function Render(p: Path): string {
    if p != [] && p[0].F? then RenderFrom(p)[1..] else RenderFrom(p)
  }

  /** Go's order on strings. */
  predicate StringLess(a: string, b: string) {
    b != [] && (a == [] || a[0] < b[0] || (a[0] == b[0] && StringLess(a[1..], b[1..])))
  }

  predicate Before(mode: Mode, p: Path, q: Path) {
    match mode
    case ToSingletonList => !StringLess(Render(q), Render(p))
    case ToEmbeddedObject => !StringLess(Render(p), Render(q))
  }

  ghost predicate Sorted(mode: Mode, ps: seq<Path>) {
    forall i, j | 0 <= i < j < |ps| :: Before(mode, ps[i], ps[j])
  }

  lemma {:induction false} StringLessConnected(a: string, b: string)
    ensures StringLess(a, b) || a == b || StringLess(b, a)
    decreases |a|
  {
    if a != [] && b != [] && a[0] == b[0] {
      StringLessConnected(a[1..], b[1..]);
      assert a == [a[0]] + a[1..] && b == [b[0]] + b[1..];
    }
  }

  lemma {:induction false} StringLessTransitive(a: string, b: string, c: string)
    requires StringLess(a, b) && StringLess(b, c)
    ensures StringLess(a, c)
    decreases |a|
  {
    if a != [] && a[0] == b[0] && b[0] == c[0] {
      StringLessTransitive(a[1..], b[1..], c[1..]);
    }
  }

  lemma {:induction false} StringLessAsymmetric(a: string, b: string)
    requires StringLess(a, b)
    ensures !StringLess(b, a)
    decreases |a|
  {
    if a != [] && a[0] == b[0] {
      StringLessAsymmetric(a[1..], b[1..]);
    }
  }

  lemma BeforeTotal(mode: Mode, p: Path, q: Path, r: Path)
    ensures Before(mode, p, q) || Before(mode, q, p)
    ensures Before(mode, p, q) && Before(mode, q, r) ==> Before(mode, p, r)
  {
    var a, b, c := Render(p), Render(q), Render(r);
    StringLessConnected(a, b);
    StringLessConnected(b, c);
    if StringLess(a, b) { StringLessAsymmetric(a, b); }
    if StringLess(b, a) { StringLessAsymmetric(b, a); }
    if StringLess(a, b) && StringLess(b, c) { StringLessTransitive(a, b, c); StringLessAsymmetric(a, c); }
    if StringLess(c, b) && StringLess(b, a) { StringLessTransitive(c, b, a); StringLessAsymmetric(c, a); }
    if StringLess(b, c) { StringLessAsymmetric(b, c); }
    if StringLess(c, b) { StringLessAsymmetric(c, b); }
  }

  function Insert(mode: Mode, p: Path, ps: seq<Path>): seq<Path> {
    if ps == [] || Before(mode, p, ps[0]) then [p] + ps else [ps[0]] + Insert(mode, p, ps[1..])
  }

  lemma {:induction false} InsertMembers(mode: Mode, p: Path, ps: seq<Path>)
    ensures multiset(Insert(mode, p, ps)) == multiset(ps) + multiset{p}
  {
    hide Before;
    if ps != [] && !Before(mode, p, ps[0]) {
      InsertMembers(mode, p, ps[1..]);
      assert ps == [ps[0]] + ps[1..];
    }
  }

  lemma SortedCons(mode: Mode, p: Path, ps: seq<Path>)
    requires Sorted(mode, ps) && forall q <- ps :: Before(mode, p, q)
    ensures Sorted(mode, [p] + ps)
  {
    hide Before;
  }

  lemma SortedRest(mode: Mode, ps: seq<Path>)
    requires Sorted(mode, ps) && ps != []
    ensures Sorted(mode, ps[1..]) && forall q <- ps[1..] :: Before(mode, ps[0], q)
  {
    hide Before;
  }

  lemma {:induction false} InsertSorted(mode: Mode, p: Path, ps: seq<Path>)
    requires Sorted(mode, ps)
    ensures Sorted(mode, Insert(mode, p, ps))
  {
    hide Before, Sorted;
    if ps == [] {
      SortedCons(mode, p, ps);
    } else {
      SortedRest(mode, ps);
      if Before(mode, p, ps[0]) {
        forall q <- ps
          ensures Before(mode, p, q)
        {
          BeforeTotal(mode, p, ps[0], q);
        }
        SortedCons(mode, p, ps);
      } else {
        var rest := Insert(mode, p, ps[1..]);
        InsertSorted(mode, p, ps[1..]);
        InsertMembers(mode, p, ps[1..]);
        BeforeTotal(mode, ps[0], p, p);
        forall q <- rest
          ensures Before(mode, ps[0], q)
        {
          assert q in multiset(rest);
          assert q in ps[1..] || q == p;
        }
        SortedCons(mode, ps[0], rest);
      }
    }
  }

  /** The library's sort of the copied paths: ascending to singleton lists, descending back. */
  function SortPaths(mode: Mode, ps: seq<Path>): (qs: seq<Path>)
    ensures Sorted(mode, qs) && multiset(qs) == multiset(ps)
  {
    if ps == [] then []
    else
      assert ps == [ps[0]] + ps[1..];
      InsertSorted(mode, ps[0], SortPaths(mode, ps[1..]));
      InsertMembers(mode, ps[0], SortPaths(mode, ps[1..]));
      Insert(mode, ps[0], SortPaths(mode, ps[1..]))
  }

  // ----------------------------------------------------- one path, one value

  /** The conversion of the value at one expanded path; `None` is the source's error. */
  function ConvertOne(mode: Mode, v: Json): Option<Json> {
    match mode
    case ToSingletonList => Some(Arr([v]))
    case ToEmbeddedObject =>
      match v
      case Null => Some(Null)
      case Arr(s) => if |s| > 1 then None else if |s| == 1 then Some(s[0]) else Some(Obj(map[]))
      case _ => None
  }

  // ------------------------------------------- one path, as a map over the tree

  function AllSome(vs: seq<Option<Json>>): Option<seq<Json>> {
    if exists i | 0 <= i < |vs| :: vs[i].None? then None
    else Some(seq(|vs|, i requires 0 <= i < |vs| => vs[i].value))
  }

  function AllSomeMap(m: map<string, Option<Json>>): Option<map<string, Json>> {
    if exists k <- m :: m[k].None? then None
    else Some(map k | k in m :: m[k].value)
  }

  /** Convert every place the path stands for. */
  function MapAt(mode: Mode, p: Path, v: Json): Option<Json>
    decreases |p|
  {
    if p == [] then ConvertOne(mode, v)
    else
      match p[0]
      case F(n) =>
        (match v
         case Null => Some(v)
         case Obj(m) =>
           if n !in m then Some(v)
           else
             (match MapAt(mode, p[1..], m[n])
              case None => None
              case Some(x) => Some(Obj(m[n := x])))
         case _ => None)
      case W =>
        (match v
         case Null => Some(v)
         case Atom(_) => None
         case Str(_) => None
         case Arr(vs) =>
           (match AllSome(seq(|vs|, i requires 0 <= i < |vs| => MapAt(mode, p[1..], vs[i])))
            case None => None
            case Some(xs) => Some(Arr(xs)))
         case Obj(m) =>
           (match AllSomeMap(map k | k in m :: MapAt(mode, p[1..], m[k]))
            case None => None
            case Some(xs) => Some(Obj(xs))))
  }

  /** The whole conversion: the paths one after another. */
  function ConvertAll(mode: Mode, ps: seq<Path>, v: Json): Option<Json> {
    if ps == [] then Some(v)
    else
      match MapAt(mode, ps[0], v)
      case None => None
      case Some(x) => ConvertAll(mode, ps[1..], x)
  }

  // ----------------------------------- writing the expansions one after another

  function Tails(done: set<ConcretePath>, c: Concrete): set<ConcretePath> {
    set e | e in done && e != [] && e[0] == c :: e[1..]
  }

  /** The document after the expansions in `done` have been converted. */
  function MapSome(mode: Mode, p: Path, v: Json, done: set<ConcretePath>): Json
    decreases |p|
  {
    if p == [] then
      if [] in done && ConvertOne(mode, v).Some? then ConvertOne(mode, v).value else v
    else
      match p[0]
      case F(n) =>
        if v.Obj? && n in v.fields then
          Obj(v.fields[n := MapSome(mode, p[1..], v.fields[n], Tails(done, Fld(n)))])
        else v
      case W =>
        match v
        case Arr(vs) =>
          Arr(seq(|vs|, i requires 0 <= i < |vs| => MapSome(mode, p[1..], vs[i], Tails(done, Idx(i)))))
        case Obj(m) => Obj(map k | k in m :: MapSome(mode, p[1..], m[k], Tails(done, Fld(k))))
        case _ => v
  }

  lemma TailsInsert(done: set<ConcretePath>, e: ConcretePath, c: Concrete)
    requires e != []
    ensures Tails(done + {e}, c) == if e[0] == c then Tails(done, c) + {e[1..]} else Tails(done, c)
  {}

  lemma TailsMember(done: set<ConcretePath>, c: Concrete, e: ConcretePath)
    ensures e in Tails(done, c) <==> [c] + e in done
  {
    if [c] + e in done {
      assert ([c] + e)[1..] == e;
    }
    forall x | x in done && x != [] && x[0] == c && x[1..] == e
      ensures [c] + e in done
    {
      assert x == [c] + e;
    }
  }

  lemma {:induction false} NothingDone(mode: Mode, p: Path, v: Json)
    ensures MapSome(mode, p, v, {}) == v
    decreases |p|
  {
    if p != [] {
      forall c: Concrete ensures Tails({}, c) == {} {}
      match p[0]
      case F(n) =>
        if v.Obj? && n in v.fields {
          NothingDone(mode, p[1..], v.fields[n]);
        }
      case W =>
        if v.Arr? {
          forall i | 0 <= i < |v.elems|
            ensures MapSome(mode, p[1..], v.elems[i], Tails({}, Idx(i))) == v.elems[i]
          {
            NothingDone(mode, p[1..], v.elems[i]);
          }
        } else if v.Obj? {
          forall k <- v.fields
            ensures MapSome(mode, p[1..], v.fields[k], Tails({}, Fld(k))) == v.fields[k]
          {
            NothingDone(mode, p[1..], v.fields[k]);
          }
          assert MapSome(mode, p, v, {}).fields == v.fields;
        }
    }
  }

  /** An expansion not yet written still holds its original value. */
  lemma {:induction false} PendingUntouched(mode: Mode, p: Path, v: Json, done: set<ConcretePath>, e: ConcretePath)
    requires Expand(p, v).Some? && e in Expand(p, v).value && e !in done
    ensures GetValue(MapSome(mode, p, v, done), e) == GetValue(v, e) && GetValue(v, e).Some?
    decreases |p|
  {
    if p != [] {
      ExpansionStep(p, v, e);
      assert e == [e[0]] + e[1..];
      TailsMember(done, e[0], e[1..]);
      PendingUntouched(mode, p[1..], Child(v, e[0]).value, Tails(done, e[0]), e[1..]);
    }
  }

  lemma MapSomeChild(mode: Mode, p: Path, v: Json, done: set<ConcretePath>, c: Concrete)
    requires p != [] && Child(v, c).Some? && (match p[0] case F(n) => c == Fld(n) case W => true)
    ensures Child(MapSome(mode, p, v, done), c) ==
            Some(MapSome(mode, p[1..], Child(v, c).value, Tails(done, c)))
  {}

  lemma TailsElsewhere(done: set<ConcretePath>, e: ConcretePath, c: Concrete)
    requires e != [] && e[0] != c
    ensures Tails(done + {e}, c) == Tails(done, c)
  {}

  /** Two stages that differ only below one child. */
  lemma MapSomeDiffersBelow(mode: Mode, p: Path, v: Json, done: set<ConcretePath>, e: ConcretePath)
    requires p != [] && e != [] && Child(v, e[0]).Some? && (match p[0] case F(n) => e[0] == Fld(n) case W => true)
    ensures MapSome(mode, p, v, done + {e}) ==
            (MapSomeChild(mode, p, v, done, e[0]);
             PutChild(MapSome(mode, p, v, done), e[0],
                      MapSome(mode, p[1..], Child(v, e[0]).value, Tails(done, e[0]) + {e[1..]})))
  {
    MapSomeChild(mode, p, v, done, e[0]);
    TailsInsert(done, e, e[0]);
    if p[0].W? && v.Obj? {
      forall k <- v.fields | Fld(k) != e[0] { TailsElsewhere(done, e, Fld(k)); }
      hide Tails, ConvertOne;
      assert MapSome(mode, p, v, done + {e}).fields ==
             MapSome(mode, p, v, done).fields[e[0].name := MapSome(mode, p, v, done + {e}).fields[e[0].name]];
    } else if p[0].W? {
      forall i | 0 <= i < |v.elems| && Idx(i) != e[0] { TailsElsewhere(done, e, Idx(i)); }
      hide Tails, ConvertOne;
      assert MapSome(mode, p, v, done + {e}).elems ==
             MapSome(mode, p, v, done).elems[e[0].i := MapSome(mode, p, v, done + {e}).elems[e[0].i]];
    }
  }

  /** Writing one more expansion. */
  lemma {:induction false} WriteStep(mode: Mode, p: Path, v: Json, done: set<ConcretePath>, e: ConcretePath)
    requires Expand(p, v).Some? && e in Expand(p, v).value && e !in done
    requires GetValue(v, e).Some? && ConvertOne(mode, GetValue(v, e).value).Some?
    ensures GetValue(MapSome(mode, p, v, done), e).Some?
    ensures Put(MapSome(mode, p, v, done), e, ConvertOne(mode, GetValue(v, e).value).value) ==
            MapSome(mode, p, v, done + {e})
    decreases |p|
  {
    PendingUntouched(mode, p, v, done, e);
    if p == [] {
      assert e == [];
    } else {
      ExpansionStep(p, v, e);
      assert e == [e[0]] + e[1..];
      TailsMember(done, e[0], e[1..]);
      MapSomeChild(mode, p, v, done, e[0]);
      MapSomeDiffersBelow(mode, p, v, done, e);
      hide MapSome, Expand, ConvertOne, Child, PutChild, Tails;
      WriteStep(mode, p[1..], Child(v, e[0]).value, Tails(done, e[0]), e[1..]);
    }
  }

  lemma {:induction false} ExpandErrorIsMapError(mode: Mode, p: Path, v: Json)
    requires Expand(p, v).None?
    ensures MapAt(mode, p, v).None?
    decreases |p|
  {
    match p[0]
    case F(n) =>
      if v.Obj? {
        ExpandErrorIsMapError(mode, p[1..], v.fields[n]);
      }
    case W =>
      if v.Arr? {
        var i :| 0 <= i < |v.elems| && Expand(p[1..], v.elems[i]).None?;
        ExpandErrorIsMapError(mode, p[1..], v.elems[i]);
        var xs := seq(|v.elems|, i requires 0 <= i < |v.elems| => MapAt(mode, p[1..], v.elems[i]));
        assert xs[i].None?;
      } else if v.Obj? {
        var k :| k in v.fields && Expand(p[1..], v.fields[k]).None?;
        ExpandErrorIsMapError(mode, p[1..], v.fields[k]);
        var xs := map k | k in v.fields :: MapAt(mode, p[1..], v.fields[k]);
        assert xs[k].None?;
      }
  }

  lemma {:induction false} ConvertErrorIsMapError(mode: Mode, p: Path, v: Json, e: ConcretePath)
    requires Expand(p, v).Some? && e in Expand(p, v).value
    requires GetValue(v, e).Some? && ConvertOne(mode, GetValue(v, e).value).None?
    ensures MapAt(mode, p, v).None?
    decreases |p|
  {
    if p != [] {
      ExpansionStep(p, v, e);
      var child := Child(v, e[0]).value;
      ConvertErrorIsMapError(mode, p[1..], child, e[1..]);
      if p[0].W? && v.Arr? {
        var xs := seq(|v.elems|, i requires 0 <= i < |v.elems| => MapAt(mode, p[1..], v.elems[i]));
        assert xs[e[0].i].None?;
      } else if p[0].W? {
        var xs := map k | k in v.fields :: MapAt(mode, p[1..], v.fields[k]);
        assert xs[e[0].name].None?;
      }
    }
  }

  ghost predicate AllConvertible(mode: Mode, v: Json, es: set<ConcretePath>) {
    forall e <- es :: GetValue(v, e).Some? && ConvertOne(mode, GetValue(v, e).value).Some?
  }

  lemma ConvertibleBelow(mode: Mode, p: Path, v: Json, c: Concrete)
    requires p != [] && Expand(p, v).Some? && AllConvertible(mode, v, Expand(p, v).value)
    requires Child(v, c).Some? && (match p[0] case F(n) => c == Fld(n) case W => true)
    ensures var child := Child(v, c).value;
            && Expand(p[1..], child).Some?
            && Tails(Expand(p, v).value, c) == Expand(p[1..], child).value
            && AllConvertible(mode, child, Expand(p[1..], child).value)
  {
    var child := Child(v, c).value;
    var es := Expand(p[1..], child).value;
    forall e
      ensures e in Tails(Expand(p, v).value, c) <==> e in es
    {
      TailsMember(Expand(p, v).value, c, e);
      if [c] + e in Expand(p, v).value {
        ExpansionStep(p, v, [c] + e);
        assert ([c] + e)[1..] == e;
      }
    }
    forall e <- es
      ensures GetValue(child, e).Some? && ConvertOne(mode, GetValue(child, e).value).Some?
    {
      assert [c] + e in Expand(p, v).value;
      assert ([c] + e)[1..] == e;
      assert GetValue(v, [c] + e) == GetValue(child, e);
    }
  }

  /** When every expansion converts, writing them all is the map over the tree. */
  lemma {:induction false} AllWritten(mode: Mode, p: Path, v: Json)
    requires Expand(p, v).Some? && AllConvertible(mode, v, Expand(p, v).value)
    ensures MapAt(mode, p, v) == Some(MapSome(mode, p, v, Expand(p, v).value))
    decreases |p|
  {
    var es := Expand(p, v).value;
    if p == [] {
      assert GetValue(v, []) == Some(v);
      assert [] in es;
    } else if p[0].F? {
      hide AllConvertible, GetValue;
      var n := p[0].name;
      if v.Obj? && n in v.fields {
        ConvertibleBelow(mode, p, v, Fld(n));
        AllWritten(mode, p[1..], v.fields[n]);
      }
    } else if v.Arr? {
      hide AllConvertible, GetValue;
      forall i | 0 <= i < |v.elems|
        ensures MapAt(mode, p[1..], v.elems[i]) == Some(MapSome(mode, p[1..], v.elems[i], Tails(es, Idx(i))))
      {
        ConvertibleBelow(mode, p, v, Idx(i));
        AllWritten(mode, p[1..], v.elems[i]);
      }
      assert MapAt(mode, p, v).value.elems == MapSome(mode, p, v, es).elems;
    } else if v.Obj? {
      hide AllConvertible, GetValue;
      forall k <- v.fields
        ensures MapAt(mode, p[1..], v.fields[k]) == Some(MapSome(mode, p[1..], v.fields[k], Tails(es, Fld(k))))
      {
        ConvertibleBelow(mode, p, v, Fld(k));
        AllWritten(mode, p[1..], v.fields[k]);
      }
      assert MapAt(mode, p, v).value.fields == MapSome(mode, p, v, es).fields;
    }
  }

  // ----------------------------------------------------------- the conversion

  /** Registered paths start and end with a field name. */
  predicate Registered(p: Path) {
    p != [] && p[0].F? && p[|p| - 1].F?
  }

  /** setValue: the parent object is looked up and its last entry is overwritten. */
  method SetValue(pv: Json, x: Json, e: ConcretePath) returns (r: Option<Json>)
    requires e != [] && e[|e| - 1].Fld? && GetValue(pv, e).Some?
    ensures r == Some(Put(pv, e, x))
  {
    var last := |e| - 1;
    ParentOf(pv, e, x);
    var pm := GetValue(pv, e[..last]);
    if pm.None? || !pm.value.Obj? {
      return None;
    }
    r := Some(Put(pv, e[..last], Obj(pm.value.fields[e[last].name := x])));
  }

  lemma {:induction false} ParentOf(v: Json, e: ConcretePath, x: Json)
    requires e != [] && e[|e| - 1].Fld? && GetValue(v, e).Some?
    ensures var parent := GetValue(v, e[..|e| - 1]);
            && parent.Some? && parent.value.Obj?
            && Put(v, e, x) == Put(v, e[..|e| - 1], Obj(parent.value.fields[e[|e| - 1].name := x]))
    decreases |e|
  {
    if |e| > 1 {
      var child := Child(v, e[0]).value;
      assert e[1..][..|e| - 2] == e[..|e| - 1][1..];
      ParentOf(child, e[1..], x);
    }
  }

  /** Convert: for each sorted path, for each of its expansions in any order, read the value,
      convert it and overwrite it. */
  method Convert(params: Json, p: seq<Path>, mode: Mode) returns (r: Option<Json>)
    requires params.Obj? && forall q <- p :: Registered(q)
    ensures r == ConvertAll(mode, SortPaths(mode, p), params)
  {
    var paths := SortPaths(mode, p);
    forall q <- paths
      ensures Registered(q)
    {
      assert q in multiset(paths);
      assert q in multiset(p);
    }
    hide SortPaths, Registered, MapAt;
    var pv := params;
    for n := 0 to |paths|
      invariant ConvertAll(mode, paths[n..], pv) == ConvertAll(mode, paths, params)
    {
      assert paths[n..][0] == paths[n] && paths[n..][1..] == paths[n + 1..];
      var next := ConvertPath(mode, paths[n], pv);
      if next.None? {
        return None;
      }
      pv := next.value;
    }
    assert paths[|paths|..] == [];
    return Some(pv);
  }

  method ConvertPath(mode: Mode, fp: Path, start: Json) returns (r: Option<Json>)
    requires Registered(fp)
    ensures r == MapAt(mode, fp, start)
  {
    var pv := start;
    var exp := Expand(fp, start);
    if exp.None? {
      ExpandErrorIsMapError(mode, fp, start);
      return None;
    }
    var todo := exp.value;
    NothingDone(mode, fp, start);
    assert exp.value - todo == {};
    while todo != {}
      invariant todo <= exp.value
      invariant pv == MapSome(mode, fp, start, exp.value - todo)
      invariant AllConvertible(mode, start, exp.value - todo)
    {
      var e :| e in todo;
      ghost var done := exp.value - todo;
      PendingUntouched(mode, fp, start, done, e);
      ExpansionShape(fp, start, e);
      var v := GetValue(pv, e);
      if v.None? {
        return None;
      }
      var newVal := Null;
      match mode {
        case ToSingletonList =>
          newVal := Arr([v.value]);
        case ToEmbeddedObject =>
          if !v.value.Null? {
            newVal := Obj(map[]);
            if !v.value.Arr? || |v.value.elems| > 1 {
              ConvertErrorIsMapError(mode, fp, start, e);
              return None;
            }
            if |v.value.elems| > 0 {
              newVal := v.value.elems[0];
            }
          }
      }
      WriteStep(mode, fp, start, done, e);
      var set' := SetValue(pv, newVal, e);
      if set'.None? {
        return None;
      }
      pv := set'.value;
      todo := todo - {e};
      assert exp.value - todo == done + {e};
    }
    assert exp.value - todo == exp.value;
    AllWritten(mode, fp, start);
    return Some(pv);
  }
}
