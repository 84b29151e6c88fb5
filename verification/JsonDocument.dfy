/** Decoded JSON documents and access by expanded field paths, as the field path library has it. */
module JsonDocument {
  import opened Wrappers

  /** An `Atom` is any number or boolean. */
  datatype Json = Null | Atom(id: int) | Str(s: string) | Arr(elems: seq<Json>) | Obj(fields: map<string, Json>)

  /** A segment of a registered path: a field name or the wildcard. */
  datatype Segment = F(name: string) | W
  type Path = seq<Segment>

  /** A segment of an expanded path. */
  datatype Concrete = Fld(name: string) | Idx(i: nat)
  type ConcretePath = seq<Concrete>

  function Child(v: Json, c: Concrete): Option<Json> {
    match c
    case Fld(n) => if v.Obj? && n in v.fields then Some(v.fields[n]) else None
    case Idx(i) => if v.Arr? && i < |v.elems| then Some(v.elems[i]) else None
  }

  function PutChild(v: Json, c: Concrete, x: Json): Json
    requires Child(v, c).Some?
  {
    match c
    case Fld(n) => Obj(v.fields[n := x])
    case Idx(i) => Arr(v.elems[i := x])
  }

  /** The value at an expanded path; `None` is the library's error. */
  function GetValue(v: Json, e: ConcretePath): Option<Json> {
    if e == [] then Some(v)
    else if Child(v, e[0]).None? then None
    else GetValue(Child(v, e[0]).value, e[1..])
  }

  /** The document after the entry at an existing path is overwritten. */
  function Put(v: Json, e: ConcretePath, x: Json): Json
    requires GetValue(v, e).Some?
  {
    if e == [] then x
    else PutChild(v, e[0], Put(Child(v, e[0]).value, e[1..], x))
  }

  // ------------------------------------------------------------ wildcards

  /** The paths a wildcard expression stands for in a document. A missing field or a null expands
      to nothing; a field of a non-object or a wildcard at a leaf is an error. */
  function Expand(p: Path, v: Json): Option<set<ConcretePath>> {
    if p == [] then Some({[]})
    else
      match p[0]
      case F(n) =>
        (match v
         case Null => Some({})
         case Obj(m) =>
           if n !in m then Some({})
           else
             (match Expand(p[1..], m[n])
              case None => None
              case Some(es) => Some(set e | e in es :: [Fld(n)] + e))
         case _ => None)
      case W =>
        (match v
         case Null => Some({})
         case Atom(_) => None
         case Str(_) => None
         case Arr(vs) =>
           if exists i | 0 <= i < |vs| :: Expand(p[1..], vs[i]).None? then None
           else Some(set i, e | 0 <= i < |vs| && e in Expand(p[1..], vs[i]).value :: [Idx(i)] + e)
         case Obj(m) =>
           if exists k <- m :: Expand(p[1..], m[k]).None? then None
           else Some(set k, e | k in m && e in Expand(p[1..], m[k]).value :: [Fld(k)] + e))
  }

  /** The child an expansion goes through, its segment and the rest of the path. */
  lemma ExpansionStep(p: Path, v: Json, e: ConcretePath)
    requires p != [] && Expand(p, v).Some? && e in Expand(p, v).value
    ensures e != [] && Child(v, e[0]).Some?
    ensures var child := Child(v, e[0]).value;
            Expand(p[1..], child).Some? && e[1..] in Expand(p[1..], child).value
    ensures match p[0] case F(n) => e[0] == Fld(n) case W => v.Obj? <==> e[0].Fld?
  {
    match p[0]
    case F(n) =>
      var e' :| e' in Expand(p[1..], v.fields[n]).value && e == [Fld(n)] + e';
      assert e[1..] == e';
    case W =>
      if v.Arr? {
        var i, e' :| 0 <= i < |v.elems| && e' in Expand(p[1..], v.elems[i]).value && e == [Idx(i)] + e';
        assert e[1..] == e';
      } else {
        var k, e' :| k in v.fields && e' in Expand(p[1..], v.fields[k]).value && e == [Fld(k)] + e';
        assert e[1..] == e';
      }
  }

  lemma {:induction false} ExpansionShape(p: Path, v: Json, e: ConcretePath)
    requires Expand(p, v).Some? && e in Expand(p, v).value
    ensures |e| == |p| && forall i | 0 <= i < |p| && p[i].F? :: e[i] == Fld(p[i].name)
    decreases |p|
  {
    if p != [] {
      ExpansionStep(p, v, e);
      ExpansionShape(p[1..], Child(v, e[0]).value, e[1..]);
    }
  }

  // ------------------------------------------------------------ laws of access

  lemma {:induction false} GetAppend(v: Json, a: ConcretePath, b: ConcretePath)
    ensures GetValue(v, a + b) == match GetValue(v, a) case None => None case Some(x) => GetValue(x, b)
    decreases |a|
  {
    if a == [] {
      assert a + b == b;
    } else {
      assert (a + b)[1..] == a[1..] + b;
      if Child(v, a[0]).Some? {
        GetAppend(Child(v, a[0]).value, a[1..], b);
      }
    }
  }

  lemma {:induction false} GetPut(v: Json, e: ConcretePath, x: Json)
    requires GetValue(v, e).Some?
    ensures GetValue(Put(v, e, x), e) == Some(x)
    decreases |e|
  {
    if e != [] {
      GetPut(Child(v, e[0]).value, e[1..], x);
    }
  }

  lemma {:induction false} PutGet(v: Json, e: ConcretePath)
    requires GetValue(v, e).Some?
    ensures Put(v, e, GetValue(v, e).value) == v
    decreases |e|
  {
    if e != [] {
      PutGet(Child(v, e[0]).value, e[1..]);
    }
  }

  lemma ChildPutChild(v: Json, c: Concrete, x: Json, y: Json)
    requires Child(v, c).Some?
    ensures Child(PutChild(v, c, x), c) == Some(x) && PutChild(PutChild(v, c, x), c, y) == PutChild(v, c, y)
  {}

  lemma {:induction false} PutPut(v: Json, e: ConcretePath, x: Json, y: Json)
    requires GetValue(v, e).Some?
    ensures GetValue(Put(v, e, x), e).Some? && Put(Put(v, e, x), e, y) == Put(v, e, y)
    decreases |e|
  {
    GetPut(v, e, x);
    if e != [] {
      var c := Child(v, e[0]).value;
      PutPut(c, e[1..], x, y);
      ChildPutChild(v, e[0], Put(c, e[1..], x), Put(c, e[1..], y));
    }
  }

  lemma {:induction false} PutAppend(v: Json, a: ConcretePath, b: ConcretePath, x: Json)
    requires GetValue(v, a).Some? && GetValue(GetValue(v, a).value, b).Some?
    ensures GetValue(v, a + b).Some? && Put(v, a + b, x) == Put(v, a, Put(GetValue(v, a).value, b, x))
    decreases |a|
  {
    GetAppend(v, a, b);
    if a == [] {
      assert a + b == b;
    } else {
      assert (a + b)[1..] == a[1..] + b;
      PutAppend(Child(v, a[0]).value, a[1..], b, x);
    }
  }
}
