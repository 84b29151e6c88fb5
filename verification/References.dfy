/** Reference resolution between example manifests (`pkg/registry/reference/resolver.go`):
    depth first over a possibly cyclic graph, rewriting the manifests in place. */
module References {
  import opened JsonDocument
  import opened Wrappers

  /** A parsed reference: the context key of the manifest and the attribute in it. */
  datatype Target = Target(name: string, attribute: string)

  /** Reference syntax and the lookup path of an attribute below a manifest's parameters. */
  datatype Syntax = Syntax(parse: string -> Option<Target>, locate: (string, string) -> ConcretePath)

  /** GetString: a missing field is told apart from a value that is no string. */
  datatype Lookup = Found(s: string) | NotFound | LookupError

  function GetString(v: Json, p: ConcretePath): Lookup {
    if p == [] then
      if v.Str? then Found(v.s) else LookupError
    else
      match p[0]
      case Fld(n) =>
        (match v
         case Null => NotFound
         case Obj(m) => if n in m then GetString(m[n], p[1..]) else NotFound
         case _ => LookupError)
      case Idx(i) =>
        match v
        case Arr(es) => if i < |es| then GetString(es[i], p[1..]) else NotFound
        case _ => LookupError
  }

  // ------------------------------------------------------------ acyclic contexts

  /** The manifests before resolution and a rank that decreases along references. */
  datatype Order = Order(initial: map<string, Json>, rank: map<string, nat>)

  /** The target of a string, if it is a reference into the context. */
  function TargetIn(syn: Syntax, names: set<string>, s: string): Option<Target> {
    match syn.parse(s)
    case None => None
    case Some(t) => if t.name in names then Some(t) else None
  }

  /** Every reference in a tree leads to a manifest of lower rank. Only the direct values of maps are
      references, and only maps inside maps and lists are searched. */
  ghost predicate RefsBelow(syn: Syntax, o: Order, v: Json, r: nat)
    decreases v, 0
  {
    v.Obj? ==> forall k <- v.fields :: ValueRefsBelow(syn, o, v.fields[k], r)
  }

  ghost predicate ValueRefsBelow(syn: Syntax, o: Order, c: Json, r: nat)
    decreases c, 1
  {
    match c
    case Str(s) =>
      var t := TargetIn(syn, o.initial.Keys, s);
      t.Some? ==> t.value.name in o.rank && o.rank[t.value.name] < r
    case Obj(_) => RefsBelow(syn, o, c, r)
    case Arr(es) => forall i | 0 <= i < |es| :: RefsBelow(syn, o, es[i], r)
    case _ => true
  }

  ghost predicate Acyclic(syn: Syntax, o: Order) {
    && o.rank.Keys == o.initial.Keys
    && forall n <- o.initial :: o.initial[n].Obj? && RefsBelow(syn, o, o.initial[n], o.rank[n])
  }

  /** Every manifest that a reference in a tree leads to has been visited. */
  ghost predicate RefsIn(syn: Syntax, names: set<string>, v: Json, visited: set<string>)
    decreases v, 0
  {
    v.Obj? ==> forall k <- v.fields :: ValueRefsIn(syn, names, v.fields[k], visited)
  }

  ghost predicate ValueRefsIn(syn: Syntax, names: set<string>, c: Json, visited: set<string>)
    decreases c, 1
  {
    match c
    case Str(s) =>
      var t := TargetIn(syn, names, s);
      t.Some? ==> t.value.name in visited
    case Obj(_) => RefsIn(syn, names, c, visited)
    case Arr(es) => forall i | 0 <= i < |es| :: RefsIn(syn, names, es[i], visited)
    case _ => true
  }

  lemma {:induction false} RefsInMore(syn: Syntax, names: set<string>, v: Json, visited: set<string>,
                                      visited': set<string>)
    requires RefsIn(syn, names, v, visited) && visited <= visited'
    ensures RefsIn(syn, names, v, visited')
    decreases v, 0
  {
    if v.Obj? {
      forall k <- v.fields
        ensures ValueRefsIn(syn, names, v.fields[k], visited')
      {
        ValueRefsInMore(syn, names, v.fields[k], visited, visited');
      }
    }
  }

  lemma {:induction false} ValueRefsInMore(syn: Syntax, names: set<string>, c: Json, visited: set<string>,
                                           visited': set<string>)
    requires ValueRefsIn(syn, names, c, visited) && visited <= visited'
    ensures ValueRefsIn(syn, names, c, visited')
    decreases c, 1
  {
    match c
    case Obj(_) => RefsInMore(syn, names, c, visited, visited');
    case Arr(es) =>
      forall i | 0 <= i < |es|
        ensures RefsIn(syn, names, es[i], visited')
      {
        RefsInMore(syn, names, es[i], visited, visited');
      }
    case _ =>
  }

  // ------------------------------------------------- the resolved form of a tree

  /** The final tree of a manifest; `None` when resolving it fails. */
  ghost function Final(syn: Syntax, o: Order, n: string): Option<Json>
    requires Acyclic(syn, o) && n in o.initial
    decreases o.rank[n], 1, o.initial[n], 0
  {
    Resolved(syn, o, o.initial[n], o.rank[n])
  }

  ghost function Resolved(syn: Syntax, o: Order, v: Json, r: nat): Option<Json>
    requires Acyclic(syn, o) && RefsBelow(syn, o, v, r)
    decreases r, 0, v, 0
  {
    if !v.Obj? then Some(v)
    else if exists k <- v.fields :: ResolvedValue(syn, o, v.fields[k], r).None? then None
    else Some(Obj(map k | k in v.fields :: ResolvedValue(syn, o, v.fields[k], r).value))
  }

  ghost function ResolvedValue(syn: Syntax, o: Order, c: Json, r: nat): Option<Json>
    requires Acyclic(syn, o) && ValueRefsBelow(syn, o, c, r)
    decreases r, 0, c, 1
  {
    match c
    case Str(s) => ResolvedString(syn, o, s, r)
    case Obj(_) => Resolved(syn, o, c, r)
    case Arr(es) =>
      if exists i | 0 <= i < |es| :: Resolved(syn, o, es[i], r).None? then None
      else Some(Arr(seq(|es|, i requires 0 <= i < |es| => Resolved(syn, o, es[i], r).value)))
    case _ => Some(c)
  }

  ghost function ResolvedString(syn: Syntax, o: Order, s: string, r: nat): Option<Json>
    requires Acyclic(syn, o)
    requires var t := TargetIn(syn, o.initial.Keys, s);
             t.Some? ==> t.value.name in o.rank && o.rank[t.value.name] < r
    decreases r, 0, Str(s), 0
  {
    match TargetIn(syn, o.initial.Keys, s)
    case None => Some(Str(s))
    case Some(t) =>
      match Final(syn, o, t.name)
      case None => None
      case Some(tree) =>
        match GetString(tree, syn.locate(t.name, t.attribute))
        case Found(x) => Some(Str(x))
        case NotFound => Some(Str(s))
        case LookupError => None
  }

  // ------------------------------------------------------ resolution in place

  /** What is known about the trees in an acyclic context: a visited manifest is final, and so are those it
      refers to, unless it is among those being worked on; an unvisited one is as it was. */
  ghost predicate ProgressAt(syn: Syntax, o: Order, trees: map<string, Json>, visited: set<string>, busy: set<string>) {
    && Acyclic(syn, o) && o.initial.Keys == trees.Keys && busy <= visited <= trees.Keys
    && forall n <- trees | n !in busy ::
         if n in visited then Final(syn, o, n) == Some(trees[n]) && RefsIn(syn, trees.Keys, o.initial[n], visited)
         else trees[n] == o.initial[n]
  }

  ghost predicate AllObjects(trees: map<string, Json>) {
    forall n <- trees :: trees[n].Obj?
  }

  lemma ObjectsStay(trees: map<string, Json>, n: string, x: Json)
    requires AllObjects(trees) && x.Obj?
    ensures AllObjects(trees[n := x]) && (n in trees ==> trees[n].Obj?)
  {}

  /** The visits so far, one for each visited manifest. */
  ghost predicate VisitedOnce(visits: seq<string>, visited: set<string>) {
    && (forall n: string :: n in visits <==> n in visited)
    && (forall i, j | 0 <= i < j < |visits| :: visits[i] != visits[j])
  }

  lemma VisitOnceMore(visits: seq<string>, visited: set<string>, n: string)
    requires VisitedOnce(visits, visited) && n !in visited
    ensures VisitedOnce(visits + [n], visited + {n})
  {}

  ghost predicate SameTrees(a: map<string, Json>, b: map<string, Json>, ns: set<string>) {
    ns <= a.Keys && ns <= b.Keys && forall n <- ns :: a[n] == b[n]
  }

  lemma AllSame(a: map<string, Json>, ns: set<string>)
    requires ns <= a.Keys
    ensures SameTrees(a, a, ns)
  {}

  lemma ProgressFacts(syn: Syntax, o: Order, trees: map<string, Json>, visited: set<string>, busy: set<string>)
    requires ProgressAt(syn, o, trees, visited, busy)
    ensures Acyclic(syn, o) && o.rank.Keys == o.initial.Keys == trees.Keys
  {}

  lemma SameTreesThen(a: map<string, Json>, b: map<string, Json>, c: map<string, Json>, ns: set<string>,
                      ms: set<string>)
    requires SameTrees(a, b, ns) && SameTrees(b, c, ms) && ns <= ms
    ensures SameTrees(a, c, ns)
  {}

  ghost predicate AboveAll(o: Order, busy: set<string>, r: nat) {
    forall b <- busy :: b in o.rank && o.rank[b] >= r
  }

  lemma VisitBegins(syn: Syntax, o: Order, trees: map<string, Json>, visited: set<string>, busy: set<string>, n: string)
    requires ProgressAt(syn, o, trees, visited, busy) && n in trees && n !in visited
    requires n in o.rank && AboveAll(o, busy, o.rank[n] + 1)
    ensures ProgressAt(syn, o, trees, visited + {n}, busy + {n}) && AboveAll(o, busy + {n}, o.rank[n])
    ensures trees[n] == o.initial[n] && RefsBelow(syn, o, trees[n], o.rank[n]) && n !in busy
  {
    hide RefsIn, Final;
    forall m <- trees | m !in busy && m in visited
      ensures RefsIn(syn, trees.Keys, o.initial[m], visited + {n})
    {
      RefsInMore(syn, trees.Keys, o.initial[m], visited, visited + {n});
    }
  }

  lemma VisitEnds(syn: Syntax, o: Order, trees: map<string, Json>, visited: set<string>, busy: set<string>, n: string)
    requires ProgressAt(syn, o, trees, visited, busy + {n}) && n in trees && n !in busy
    requires Final(syn, o, n) == Some(trees[n]) && RefsIn(syn, trees.Keys, o.initial[n], visited)
    ensures ProgressAt(syn, o, trees, visited, busy)
  {}

  lemma BusyRewritten(syn: Syntax, o: Order, trees: map<string, Json>, visited: set<string>, busy: set<string>,
                      n: string, x: Json)
    requires ProgressAt(syn, o, trees, visited, busy) && n in busy
    ensures ProgressAt(syn, o, trees[n := x], visited, busy)
  {}

  /** In the middle of an acyclic context, the manifest a reference leads to is not being worked on. */
  lemma TargetNotBusy(syn: Syntax, o: Order, trees: map<string, Json>, visited: set<string>, busy: set<string>,
                      s: string, r: nat)
    requires ProgressAt(syn, o, trees, visited, busy) && AboveAll(o, busy, r) && ValueRefsBelow(syn, o, Str(s), r)
    requires syn.parse(s).Some? && syn.parse(s).value.name in trees
    ensures var n := syn.parse(s).value.name;
            n in o.rank && n !in busy && AboveAll(o, busy, o.rank[n] + 1)
    ensures TargetIn(syn, o.initial.Keys, s) == syn.parse(s)
  {}

  // ------------------------------------------------- what one call relies on and leaves

  /** A manifest may be visited: in an acyclic context it lies below all that is being worked on. */
  ghost predicate MayVisit(syn: Syntax, order: Option<Order>, trees: map<string, Json>, visited: set<string>,
                           busy: set<string>, name: string)
  {
    order.Some? ==>
      && ProgressAt(syn, order.value, trees, visited, busy) && name in order.value.rank
      && AboveAll(order.value, busy, order.value.rank[name] + 1)
  }

  /** The visit has made the manifest final, or there is no final form of it. */
  ghost predicate VisitEnded(syn: Syntax, order: Option<Order>, trees: map<string, Json>, visited: set<string>,
                             busy: set<string>, name: string, err: bool)
  {
    order.Some? ==>
      && Acyclic(syn, order.value) && name in order.value.initial
      && if err then Final(syn, order.value, name).None? else ProgressAt(syn, order.value, trees, visited, busy)
  }

  /** A value in a manifest that is being worked on may be resolved. */
  ghost predicate Ready(syn: Syntax, order: Option<Order>, trees: map<string, Json>, visited: set<string>,
                        busy: set<string>, name: string, c: Json)
  {
    order.Some? ==>
      && ProgressAt(syn, order.value, trees, visited, busy) && name in order.value.rank
      && AboveAll(order.value, busy, order.value.rank[name])
      && ValueRefsBelow(syn, order.value, c, order.value.rank[name])
  }

  /** The value has been resolved to `x`, with all it refers to visited, or it does not resolve. */
  ghost predicate Ended(syn: Syntax, order: Option<Order>, trees: map<string, Json>, visited: set<string>,
                        busy: set<string>, name: string, c: Json, err: bool, x: Json)
  {
    order.Some? ==>
      var o := order.value;
      && Acyclic(syn, o) && name in o.rank && ValueRefsBelow(syn, o, c, o.rank[name])
      && if err then ResolvedValue(syn, o, c, o.rank[name]).None?
         else
           && ProgressAt(syn, o, trees, visited, busy) && ResolvedValue(syn, o, c, o.rank[name]) == Some(x)
           && ValueRefsIn(syn, trees.Keys, c, visited)
  }

  /** The entries in `done` of a map have been resolved. */
  ghost predicate FieldsEnded(syn: Syntax, order: Option<Order>, trees: map<string, Json>, visited: set<string>,
                              busy: set<string>, name: string, params: map<string, Json>, out: map<string, Json>,
                              done: set<string>)
  {
    Ready(syn, order, trees, visited, busy, name, Obj(params)) &&
    (order.Some? ==> ResolvedFields(syn, order.value, params, out, done, order.value.rank[name], trees.Keys, visited))
  }

  /** The first `n` items of a list have been resolved. */
  ghost predicate ItemsEnded(syn: Syntax, order: Option<Order>, trees: map<string, Json>, visited: set<string>,
                             busy: set<string>, name: string, es: seq<Json>, xs: seq<Json>, n: nat)
  {
    Ready(syn, order, trees, visited, busy, name, Arr(es)) &&
    (order.Some? ==> ResolvedItems(syn, order.value, es, xs, n, order.value.rank[name], trees.Keys, visited))
  }

  /** Manifests are only ever visited, and of the visited ones none but `name` is touched. */
  ghost predicate Grown(trees0: map<string, Json>, visited0: set<string>, visits0: seq<string>,
                        trees: map<string, Json>, visited: set<string>, visits: seq<string>, name: string)
  {
    trees.Keys == trees0.Keys && visited0 <= visited && visits0 <= visits && SameTrees(trees0, trees, visited0 - {name})
  }

  lemma GrownNot(trees: map<string, Json>, visited: set<string>, visits: seq<string>, name: string)
    requires visited <= trees.Keys
    ensures Grown(trees, visited, visits, trees, visited, visits, name)
  {}

  lemma GrownThen(trees0: map<string, Json>, visited0: set<string>, visits0: seq<string>,
                  trees1: map<string, Json>, visited1: set<string>, visits1: seq<string>,
                  trees: map<string, Json>, visited: set<string>, visits: seq<string>, name: string)
    requires Grown(trees0, visited0, visits0, trees1, visited1, visits1, name)
    requires Grown(trees1, visited1, visits1, trees, visited, visits, name)
    ensures Grown(trees0, visited0, visits0, trees, visited, visits, name)
  {
    hide SameTrees;
    SameTreesThen(trees0, trees1, trees, visited0 - {name}, visited1 - {name});
  }

  /** What is left to visit gets no more. */
  lemma GrownFacts(trees0: map<string, Json>, visited0: set<string>, visits0: seq<string>,
                   trees: map<string, Json>, visited: set<string>, visits: seq<string>, name: string)
    requires Grown(trees0, visited0, visits0, trees, visited, visits, name)
    ensures trees.Keys == trees0.Keys && visited0 <= visited
    ensures |trees.Keys - visited| <= |trees0.Keys - visited0|
  {
    FewerLeft(trees.Keys, visited0, visited);
  }

  class ResolutionContext {
    const syn: Syntax
    /** The manifests' trees by context key, rewritten in place, and which have been visited. */
    var trees: map<string, Json>
    var refsResolved: set<string>
    ghost var visits: seq<string>

    constructor (syn: Syntax, manifests: map<string, Json>)
      requires forall n <- manifests :: manifests[n].Obj?
      ensures this.syn == syn && trees == manifests && refsResolved == {} && visits == []
      ensures Valid()
    {
      this.syn := syn;
      trees := manifests;
      refsResolved := {};
      visits := [];
    }

    /** Each manifest has been visited at most once. */
    ghost predicate Valid()
      reads this
    {
      && refsResolved <= trees.Keys
      && AllObjects(trees)
      && VisitedOnce(visits, refsResolved)
    }

    lemma VisitedAreKnown()
      requires Valid()
      ensures refsResolved <= trees.Keys
    {}

    /** ResolveReferencesOfPaved: terminates on every context. If the context is acyclic, the
        manifest ends in its final form, or the call fails exactly because there is none. */
    method ResolveReferencesOfPaved(name: string, ghost order: Option<Order>, ghost busy: set<string>)
      returns (err: bool)
      requires Valid() && name in trees
      requires MayVisit(syn, order, trees, refsResolved, busy, name)
      modifies this
      ensures Valid() && trees.Keys == old(trees.Keys)
      ensures old(refsResolved) + {name} <= refsResolved && old(visits) <= visits
      ensures SameTrees(old(trees), trees, old(refsResolved))
      ensures VisitEnded(syn, order, trees, refsResolved, busy, name, err)
      decreases |trees.Keys - refsResolved|, 0, Null
    {
      hide MayVisit, VisitEnded, Ready, Ended, VisitedOnce, SameTrees, AllObjects, GetValue, Put;
      AllSame(trees, refsResolved);
      if name in refsResolved {
        VisitedBefore(syn, order, trees, refsResolved, busy, name);
        return false;
      }
      ghost var trees0, visited0 := trees, refsResolved;
      ObjectsStay(trees, name, Obj(map[]));
      VisitReady(syn, order, trees, refsResolved, busy, name);
      VisitOnceMore(visits, refsResolved, name);
      RootPath(trees[name]);
      refsResolved := refsResolved + {name};
      visits := visits + [name];
      OneLeftLess(trees.Keys, visited0, name);
      ghost var out;
      err, out := ResolveReferences(name, [], trees[name].fields, order, busy + {name});
      assert visited0 + {name} - {name} == visited0;
      RootRewritten(trees0[name], Obj(out));
      VisitDone(syn, order, trees0, visited0, trees, refsResolved, busy, name, err);
    }

    /** resolveReferences on the map at a location of a manifest: entries are rewritten in place,
        and whatever is resolved on the way leaves this manifest alone. */
    method ResolveReferences(name: string, loc: ConcretePath, ghost params: map<string, Json>,
                             ghost order: Option<Order>, ghost busy: set<string>)
      returns (err: bool, ghost out: map<string, Json>)
      requires Valid() && name in trees && name in refsResolved && name in busy
      requires GetValue(trees[name], loc) == Some(Obj(params))
      requires Ready(syn, order, trees, refsResolved, busy, name, Obj(params))
      modifies this
      ensures Valid() && name in trees
      ensures Grown(old(trees), old(refsResolved), old(visits), trees, refsResolved, visits, name)
      ensures trees[name] == Put(old(trees)[name], loc, Obj(out))
      ensures Ended(syn, order, trees, refsResolved, busy, name, Obj(params), err, Obj(out))
      decreases |trees.Keys - refsResolved|, 1, Obj(params), 2
    {
      hide ResolutionContext.Valid, Ready, Ended, FieldsEnded, Put, GetValue, VisitedOnce, SameTrees, AllObjects,
        Grown;
      out := params;
      PutGet(trees[name], loc);
      VisitedAreKnown();
      GrownNot(trees, refsResolved, visits, name);
      FieldsBegin(syn, order, trees, refsResolved, busy, name, params);
      var todo := GetValue(trees[name], loc).value.fields.Keys;
      ghost var tree0, trees0, visited0, visits0 := trees[name], trees, refsResolved, visits;
      assert params.Keys - todo == {};
      while todo != {}
        invariant todo <= params.Keys == out.Keys
        invariant forall k <- todo :: out[k] == params[k]
        invariant Valid() && Grown(trees0, visited0, visits0, trees, refsResolved, visits, name)
        invariant name in trees && trees[name] == Put(tree0, loc, Obj(out))
        invariant FieldsEnded(syn, order, trees, refsResolved, busy, name, params, out, params.Keys - todo)
      {
        var k :| k in todo;
        GrownFacts(trees0, visited0, visits0, trees, refsResolved, visits, name);
        ghost var trees1, visited1, visits1 := trees, refsResolved, visits;
        err, out := ResolveEntry(name, loc, k, tree0, params, out, params.Keys - todo, order, busy);
        GrownThen(trees0, visited0, visits0, trees1, visited1, visits1, trees, refsResolved, visits, name);
        if err {
          GrownFacts(trees0, visited0, visits0, trees, refsResolved, visits, name);
          return;
        }
        assert params.Keys - (todo - {k}) == params.Keys - todo + {k};
        todo := todo - {k};
      }
      err := false;
      assert params.Keys - todo == params.Keys;
      FieldsAll(syn, order, trees, refsResolved, busy, name, params, out, params.Keys - todo);
    }

    /** The loop body of resolveReferences, for the entry of one key. */
    method ResolveEntry(name: string, loc: ConcretePath, k: string, ghost tree0: Json, ghost params: map<string, Json>,
                        ghost before: map<string, Json>, ghost done: set<string>,
                        ghost order: Option<Order>, ghost busy: set<string>)
      returns (err: bool, ghost out: map<string, Json>)
      requires Valid() && name in trees && name in refsResolved && name in busy
      requires GetValue(tree0, loc).Some? && trees[name] == Put(tree0, loc, Obj(before))
      requires before.Keys == params.Keys && k in params && k !in done && before[k] == params[k]
      requires FieldsEnded(syn, order, trees, refsResolved, busy, name, params, before, done)
      modifies this
      ensures Valid() && name in trees
      ensures Grown(old(trees), old(refsResolved), old(visits), trees, refsResolved, visits, name)
      ensures k in out && out == before[k := out[k]]
      ensures trees[name] == Put(tree0, loc, Obj(out))
      ensures if err then Ended(syn, order, trees, refsResolved, busy, name, Obj(params), true, Obj(out))
              else FieldsEnded(syn, order, trees, refsResolved, busy, name, params, out, done + {k})
      decreases |trees.Keys - refsResolved|, 1, Obj(params), 1
    {
      hide ResolutionContext.Valid, Ready, Ended, FieldsEnded, Put, GetValue, VisitedOnce, SameTrees, AllObjects,
        Grown;
      FieldAt(tree0, loc, before, k);
      FieldReady(syn, order, trees, refsResolved, busy, name, params, before, done, k);
      ghost var x;
      ghost var trees1, visited1 := trees, refsResolved;
      err, x := ResolveValue(name, loc + [Fld(k)], params[k], order, busy);
      GrownFacts(trees1, visited1, old(visits), trees, refsResolved, visits, name);
      WriteField(tree0, loc, before, k, x);
      FieldEnds(syn, order, trees1, visited1, trees, refsResolved, busy, name, params, before, done, k, err, x);
      out := before[k := x];
    }

    /** One entry of the map: a map or a list is searched in turn, a reference is replaced. */
    method ResolveValue(name: string, loc: ConcretePath, ghost c: Json, ghost order: Option<Order>,
                        ghost busy: set<string>)
      returns (err: bool, ghost x: Json)
      requires Valid() && name in trees && name in refsResolved && name in busy
      requires GetValue(trees[name], loc) == Some(c)
      requires Ready(syn, order, trees, refsResolved, busy, name, c)
      modifies this
      ensures Valid() && name in trees
      ensures Grown(old(trees), old(refsResolved), old(visits), trees, refsResolved, visits, name)
      ensures trees[name] == Put(old(trees)[name], loc, x)
      ensures Ended(syn, order, trees, refsResolved, busy, name, c, err, x)
      decreases |trees.Keys - refsResolved|, 1, c, 3
    {
      hide ResolutionContext.Valid, Ready, Ended, Put, GetValue, VisitedOnce, SameTrees, AllObjects, Grown;
      x := c;
      err := false;
      PutGet(trees[name], loc);
      VisitedAreKnown();
      GrownNot(trees, refsResolved, visits, name);
      match GetValue(trees[name], loc).value
      case Obj(m) =>
        ghost var out;
        err, out := ResolveReferences(name, loc, m, order, busy);
        x := Obj(out);
      case Arr(es) =>
        err, x := ResolveItems(name, loc, es, order, busy);
      case Str(s) =>
        err, x := ResolveString(name, loc, s, order, busy);
      case _ =>
        PlainEnds(syn, order, trees, refsResolved, busy, name, c);
    }

    method ResolveItems(name: string, loc: ConcretePath, es: seq<Json>, ghost order: Option<Order>,
                        ghost busy: set<string>)
      returns (err: bool, ghost x: Json)
      requires Valid() && name in trees && name in refsResolved && name in busy
      requires GetValue(trees[name], loc) == Some(Arr(es))
      requires Ready(syn, order, trees, refsResolved, busy, name, Arr(es))
      modifies this
      ensures Valid() && name in trees
      ensures Grown(old(trees), old(refsResolved), old(visits), trees, refsResolved, visits, name)
      ensures trees[name] == Put(old(trees)[name], loc, x)
      ensures Ended(syn, order, trees, refsResolved, busy, name, Arr(es), err, x)
      decreases |trees.Keys - refsResolved|, 1, Arr(es), 0
    {
      hide ResolutionContext.Valid, Ready, Ended, ItemsEnded, Put, GetValue, VisitedOnce, SameTrees, AllObjects,
        Grown;
      ghost var tree0, trees0, visited0, visits0 := trees[name], trees, refsResolved, visits;
      ghost var xs := es;
      PutGet(tree0, loc);
      VisitedAreKnown();
      GrownNot(trees, refsResolved, visits, name);
      ItemsBegin(syn, order, trees, refsResolved, busy, name, es);
      for i := 0 to |es|
        invariant |xs| == |es| && xs[i..] == es[i..]
        invariant Valid() && Grown(trees0, visited0, visits0, trees, refsResolved, visits, name)
        invariant name in trees && trees[name] == Put(tree0, loc, Arr(xs))
        invariant ItemsEnded(syn, order, trees, refsResolved, busy, name, es, xs, i)
      {
        assert xs[i] == xs[i..][0] == es[i..][0] == es[i];
        ItemAt(tree0, loc, xs, i);
        GrownFacts(trees0, visited0, visits0, trees, refsResolved, visits, name);
        ghost var y := es[i];
        err := false;
        ghost var trees1, visited1, visits1 := trees, refsResolved, visits;
        if es[i].Obj? {
          ItemReady(syn, order, trees, refsResolved, busy, name, es, xs, i);
          ghost var out;
          err, out := ResolveReferences(name, loc + [Idx(i)], es[i].fields, order, busy);
          GrownThen(trees0, visited0, visits0, trees1, visited1, visits1, trees, refsResolved, visits, name);
          GrownFacts(trees1, visited1, visits1, trees, refsResolved, visits, name);
          y := Obj(out);
          WriteItem(tree0, loc, xs, i, y);
        } else {
          assert xs[i := y] == xs;
        }
        ItemEnds(syn, order, trees1, visited1, trees, refsResolved, busy, name, es, xs, i, err, y);
        xs := xs[i := y];
        if err {
          x := Arr(xs);
          return;
        }
      }
      err := false;
      x := Arr(xs);
      ItemsAll(syn, order, trees, refsResolved, busy, name, es, xs);
    }

    method ResolveString(name: string, loc: ConcretePath, s: string, ghost order: Option<Order>,
                         ghost busy: set<string>)
      returns (err: bool, ghost x: Json)
      requires Valid() && name in trees && name in refsResolved && name in busy
      requires GetValue(trees[name], loc) == Some(Str(s))
      requires Ready(syn, order, trees, refsResolved, busy, name, Str(s))
      modifies this
      ensures Valid() && name in trees
      ensures Grown(old(trees), old(refsResolved), old(visits), trees, refsResolved, visits, name)
      ensures trees[name] == Put(old(trees)[name], loc, x)
      ensures Ended(syn, order, trees, refsResolved, busy, name, Str(s), err, x)
      decreases |trees.Keys - refsResolved|, 1, Str(s), 0
    {
      hide MayVisit, VisitEnded, Ready, Ended, Put, GetValue, GetString, VisitedOnce, SameTrees, AllObjects;
      err := false;
      x := Str(s);
      PutGet(trees[name], loc);
      VisitedAreKnown();
      AllSame(trees, refsResolved - {name});
      var parts := syn.parse(s);
      if parts.None? || parts.value.name !in trees {
        StringKept(syn, order, trees, refsResolved, busy, name, s);
        return;
      }
      var t := parts.value;
      ghost var trees0, visited0 := trees, refsResolved;
      TargetReady(syn, order, trees, refsResolved, busy, name, s);
      err := ResolveReferencesOfPaved(t.name, order, busy);
      SubsetSame(trees0, trees, visited0, name);
      if err {
        StringFails(syn, order, trees0, visited0, trees, refsResolved, busy, name, s, x);
        return;
      }
      var found := GetString(trees[t.name], syn.locate(t.name, t.attribute));
      StringEnds(syn, order, trees0, visited0, trees, refsResolved, busy, name, s);
      match found
      case NotFound =>
      case LookupError =>
        err := true;
      case Found(f) =>
        x := Str(f);
        ghost var before := trees;
        trees := trees[name := Put(trees[name], loc, Str(f))];
        ObjectsStay(before, name, Obj(map[]));
        RootStaysObject(before[name], loc, Str(s), x);
        ObjectsStay(before, name, trees[name]);
        RewrittenElsewhere(trees0, before, visited0, name, trees[name]);
        RewriteEnds(syn, order, before, refsResolved, busy, name, Str(s), x, trees[name]);
    }
  }

  // ------------------------------------------------------------- visiting a manifest

  lemma VisitedBefore(syn: Syntax, order: Option<Order>, trees: map<string, Json>, visited: set<string>,
                      busy: set<string>, name: string)
    requires MayVisit(syn, order, trees, visited, busy, name)
    ensures VisitEnded(syn, order, trees, visited, busy, name, false)
  {}

  lemma VisitReady(syn: Syntax, order: Option<Order>, trees: map<string, Json>, visited: set<string>,
                   busy: set<string>, name: string)
    requires MayVisit(syn, order, trees, visited, busy, name) && name in trees && name !in visited && trees[name].Obj?
    ensures Ready(syn, order, trees, visited + {name}, busy + {name}, name, trees[name])
  {
    hide ProgressAt, AboveAll;
    if order.Some? {
      VisitBegins(syn, order.value, trees, visited, busy, name);
    }
  }

  lemma VisitDone(syn: Syntax, order: Option<Order>, trees0: map<string, Json>, visited0: set<string>,
                  trees: map<string, Json>, visited: set<string>, busy: set<string>, name: string, err: bool)
    requires MayVisit(syn, order, trees0, visited0, busy, name) && name in trees0 && name !in visited0 &&
      trees0[name].Obj?
    requires name in trees && Ended(syn, order, trees, visited, busy + {name}, name, trees0[name], err, trees[name])
    ensures VisitEnded(syn, order, trees, visited, busy, name, err)
  {
    hide ProgressAt, AboveAll, Resolved, RefsIn;
    if order.Some? {
      VisitBegins(syn, order.value, trees0, visited0, busy, name);
      ProgressFacts(syn, order.value, trees0, visited0, busy);
      if !err {
        VisitEnds(syn, order.value, trees, visited, busy, name);
      }
    }
  }

  // ------------------------------------------------------------- resolving a string

  lemma StringKept(syn: Syntax, order: Option<Order>, trees: map<string, Json>, visited: set<string>,
                   busy: set<string>, name: string, s: string)
    requires Ready(syn, order, trees, visited, busy, name, Str(s))
    requires syn.parse(s).None? || syn.parse(s).value.name !in trees
    ensures Ended(syn, order, trees, visited, busy, name, Str(s), false, Str(s))
  {}

  lemma TargetReady(syn: Syntax, order: Option<Order>, trees: map<string, Json>, visited: set<string>,
                    busy: set<string>, name: string, s: string)
    requires Ready(syn, order, trees, visited, busy, name, Str(s))
    requires syn.parse(s).Some? && syn.parse(s).value.name in trees
    ensures MayVisit(syn, order, trees, visited, busy, syn.parse(s).value.name)
  {
    hide ProgressAt, AboveAll, ValueRefsBelow;
    if order.Some? {
      TargetNotBusy(syn, order.value, trees, visited, busy, s, order.value.rank[name]);
    }
  }

  /** The same string in a later state of the context: it resolves by the final tree of its target. */
  lemma StringLater(syn: Syntax, o: Order, trees0: map<string, Json>, visited0: set<string>, busy: set<string>,
                    name: string, s: string)
    requires Ready(syn, Some(o), trees0, visited0, busy, name, Str(s))
    requires syn.parse(s).Some? && syn.parse(s).value.name in trees0
    ensures Acyclic(syn, o) && name in o.rank && ValueRefsBelow(syn, o, Str(s), o.rank[name])
    ensures var v, t := ResolvedValue(syn, o, Str(s), o.rank[name]), syn.parse(s).value;
            t.name in o.initial &&
            match Final(syn, o, t.name)
            case None => v.None?
            case Some(tree) =>
              match GetString(tree, syn.locate(t.name, t.attribute))
              case Found(x) => v == Some(Str(x))
              case NotFound => v == Some(Str(s))
              case LookupError => v.None?
  {
    StringOutcome(syn, o, s, trees0.Keys, o.rank[name], trees0, visited0, busy);
  }

  lemma StringFails(syn: Syntax, order: Option<Order>, trees0: map<string, Json>, visited0: set<string>,
                    trees: map<string, Json>, visited: set<string>, busy: set<string>, name: string, s: string, x: Json)
    requires Ready(syn, order, trees0, visited0, busy, name, Str(s))
    requires syn.parse(s).Some? && syn.parse(s).value.name in trees0
    requires VisitEnded(syn, order, trees, visited, busy, syn.parse(s).value.name, true)
    ensures Ended(syn, order, trees, visited, busy, name, Str(s), true, x)
  {
    hide Ready, Acyclic, ProgressAt, ValueRefsBelow, ResolvedValue, Final, GetString;
    if order.Some? {
      StringLater(syn, order.value, trees0, visited0, busy, name, s);
    }
  }

  lemma StringEnds(syn: Syntax, order: Option<Order>, trees0: map<string, Json>, visited0: set<string>,
                   trees: map<string, Json>, visited: set<string>, busy: set<string>, name: string, s: string)
    requires Ready(syn, order, trees0, visited0, busy, name, Str(s)) && trees.Keys == trees0.Keys
    requires syn.parse(s).Some? && syn.parse(s).value.name in trees0 && syn.parse(s).value.name in visited
    requires VisitEnded(syn, order, trees, visited, busy, syn.parse(s).value.name, false)
    ensures var t := syn.parse(s).value;
            match GetString(trees[t.name], syn.locate(t.name, t.attribute))
            case Found(x) => Ended(syn, order, trees, visited, busy, name, Str(s), false, Str(x))
            case NotFound => Ended(syn, order, trees, visited, busy, name, Str(s), false, Str(s))
            case LookupError => Ended(syn, order, trees, visited, busy, name, Str(s), true, Str(s))
  {
    hide GetString, ProgressAt, AboveAll, ValueRefsBelow, ResolvedValue, ValueRefsIn, Acyclic, Final;
    if order.Some? {
      var t := syn.parse(s).value;
      StringLater(syn, order.value, trees0, visited0, busy, name, s);
      TargetNotBusy(syn, order.value, trees0, visited0, busy, s, order.value.rank[name]);
      TargetIsFinal(syn, order.value, trees, visited, busy, t.name);
      StringRefsIn(syn, trees.Keys, s, visited);
    }
  }

  /** Writing the result into the manifest that is being worked on changes nothing of this. */
  lemma RewriteEnds(syn: Syntax, order: Option<Order>, trees: map<string, Json>, visited: set<string>,
                    busy: set<string>, name: string, c: Json, x: Json, tree: Json)
    requires Ended(syn, order, trees, visited, busy, name, c, false, x) && name in busy && name in trees
    ensures Ended(syn, order, trees[name := tree], visited, busy, name, c, false, x)
  {
    hide ProgressAt, ValueRefsBelow, ResolvedValue, ValueRefsIn, Acyclic;
    assert trees[name := tree].Keys == trees.Keys;
    if order.Some? {
      BusyRewritten(syn, order.value, trees, visited, busy, name, tree);
    }
  }

  lemma PlainEnds(syn: Syntax, order: Option<Order>, trees: map<string, Json>, visited: set<string>,
                  busy: set<string>, name: string, c: Json)
    requires Ready(syn, order, trees, visited, busy, name, c) && !c.Str? && !c.Obj? && !c.Arr?
    ensures Ended(syn, order, trees, visited, busy, name, c, false, c)
  {}

  // ------------------------------------------------------ resolving a map or a list

  lemma FieldsBegin(syn: Syntax, order: Option<Order>, trees: map<string, Json>, visited: set<string>,
                    busy: set<string>, name: string, params: map<string, Json>)
    requires Ready(syn, order, trees, visited, busy, name, Obj(params))
    ensures FieldsEnded(syn, order, trees, visited, busy, name, params, params, {})
  {
    hide ProgressAt, AboveAll, RefsBelow, ResolvedFields;
    if order.Some? {
      ProgressFacts(syn, order.value, trees, visited, busy);
      NoFieldsResolved(syn, order.value, params, order.value.rank[name], trees.Keys, visited);
    }
  }

  lemma FieldReady(syn: Syntax, order: Option<Order>, trees: map<string, Json>, visited: set<string>, busy: set<string>,
                   name: string, params: map<string, Json>, out: map<string, Json>, done: set<string>, k: string)
    requires FieldsEnded(syn, order, trees, visited, busy, name, params, out, done) && k in params
    ensures Ready(syn, order, trees, visited, busy, name, params[k])
  {
    hide ProgressAt, AboveAll, RefsBelow, ResolvedFields;
    if order.Some? {
      FieldRefsBelow(syn, order.value, params, k, order.value.rank[name]);
    }
  }

  lemma FieldEnds(syn: Syntax, order: Option<Order>, trees0: map<string, Json>, visited0: set<string>,
                  trees: map<string, Json>, visited: set<string>, busy: set<string>, name: string,
                  params: map<string, Json>, out: map<string, Json>, done: set<string>, k: string, err: bool, x: Json)
    requires FieldsEnded(syn, order, trees0, visited0, busy, name, params, out, done) && k in params && k !in done
    requires trees.Keys == trees0.Keys && visited0 <= visited
    requires Ended(syn, order, trees, visited, busy, name, params[k], err, x)
    ensures if err then Ended(syn, order, trees, visited, busy, name, Obj(params), true, Obj(out[k := x]))
            else FieldsEnded(syn, order, trees, visited, busy, name, params, out[k := x], done + {k})
  {
    hide ProgressAt, AboveAll, RefsBelow, Resolved, ResolvedFields, Acyclic;
    if order.Some? {
      if err {
        FieldFails(syn, order.value, params, k, order.value.rank[name]);
      } else {
        FieldsStep(syn, order.value, params, out, done, k, x, order.value.rank[name], trees.Keys, visited0, visited);
      }
    }
  }

  lemma FieldsAll(syn: Syntax, order: Option<Order>, trees: map<string, Json>, visited: set<string>, busy: set<string>,
                  name: string, params: map<string, Json>, out: map<string, Json>, done: set<string>)
    requires FieldsEnded(syn, order, trees, visited, busy, name, params, out, done) && done == params.Keys
    ensures Ended(syn, order, trees, visited, busy, name, Obj(params), false, Obj(out))
  {
    hide ProgressAt, AboveAll, RefsBelow, Resolved, RefsIn, ResolvedFields;
    if order.Some? {
      ProgressFacts(syn, order.value, trees, visited, busy);
      AllFieldsResolved(syn, order.value, params, out, order.value.rank[name], trees.Keys, visited);
    }
  }

  lemma ItemsBegin(syn: Syntax, order: Option<Order>, trees: map<string, Json>, visited: set<string>,
                   busy: set<string>, name: string, es: seq<Json>)
    requires Ready(syn, order, trees, visited, busy, name, Arr(es))
    ensures ItemsEnded(syn, order, trees, visited, busy, name, es, es, 0)
  {
    hide ProgressAt, AboveAll, ValueRefsBelow, ResolvedItems;
    if order.Some? {
      ProgressFacts(syn, order.value, trees, visited, busy);
      NoItemsResolved(syn, order.value, es, order.value.rank[name], trees.Keys, visited);
    }
  }

  lemma ItemReady(syn: Syntax, order: Option<Order>, trees: map<string, Json>, visited: set<string>, busy: set<string>,
                  name: string, es: seq<Json>, xs: seq<Json>, i: nat)
    requires ItemsEnded(syn, order, trees, visited, busy, name, es, xs, i) && i < |es| && es[i].Obj?
    ensures Ready(syn, order, trees, visited, busy, name, es[i])
  {
    hide ProgressAt, AboveAll, RefsBelow, ResolvedItems;
    if order.Some? {
      ItemRefsBelow(syn, order.value, es, i, order.value.rank[name]);
    }
  }

  lemma ItemEnds(syn: Syntax, order: Option<Order>, trees0: map<string, Json>, visited0: set<string>,
                 trees: map<string, Json>, visited: set<string>, busy: set<string>, name: string,
                 es: seq<Json>, xs: seq<Json>, i: nat, err: bool, y: Json)
    requires ItemsEnded(syn, order, trees0, visited0, busy, name, es, xs, i) && i < |es| == |xs|
    requires trees.Keys == trees0.Keys && visited0 <= visited
    requires if es[i].Obj? then Ended(syn, order, trees, visited, busy, name, es[i], err, y)
             else !err && y == es[i] && trees == trees0 && visited == visited0
    ensures if err then Ended(syn, order, trees, visited, busy, name, Arr(es), true, Arr(xs[i := y]))
            else ItemsEnded(syn, order, trees, visited, busy, name, es, xs[i := y], i + 1)
  {
    hide ProgressAt, AboveAll, RefsBelow, Resolved, RefsIn, ResolvedItems, Acyclic;
    if order.Some? {
      if err {
        ItemFails(syn, order.value, es, i, order.value.rank[name]);
      } else {
        ItemsStep(syn, order.value, es, xs, i, y, order.value.rank[name], trees.Keys, visited0, visited);
      }
    }
  }

  lemma ItemsAll(syn: Syntax, order: Option<Order>, trees: map<string, Json>, visited: set<string>, busy: set<string>,
                 name: string, es: seq<Json>, xs: seq<Json>)
    requires ItemsEnded(syn, order, trees, visited, busy, name, es, xs, |es|)
    ensures Ended(syn, order, trees, visited, busy, name, Arr(es), false, Arr(xs))
  {
    hide ProgressAt, AboveAll, ValueRefsBelow, ResolvedValue, ValueRefsIn, ResolvedItems;
    if order.Some? {
      ProgressFacts(syn, order.value, trees, visited, busy);
      AllItemsResolved(syn, order.value, es, xs, order.value.rank[name], trees.Keys, visited);
    }
  }

  /** How a string resolves: by the final tree of its target, if it has one in the context. */
  lemma StringOutcome(syn: Syntax, o: Order, s: string, names: set<string>, r: nat,
                      trees: map<string, Json>, visited: set<string>, busy: set<string>)
    requires ProgressAt(syn, o, trees, visited, busy) && ValueRefsBelow(syn, o, Str(s), r) && names == trees.Keys
    ensures Acyclic(syn, o)
    ensures var v := ResolvedValue(syn, o, Str(s), r);
            if syn.parse(s).None? || syn.parse(s).value.name !in names then v == Some(Str(s))
            else
              var t := syn.parse(s).value;
              match Final(syn, o, t.name)
              case None => v.None?
              case Some(tree) =>
                match GetString(tree, syn.locate(t.name, t.attribute))
                case Found(x) => v == Some(Str(x))
                case NotFound => v == Some(Str(s))
                case LookupError => v.None?
  {}

  lemma StringRefsIn(syn: Syntax, names: set<string>, s: string, visited: set<string>)
    ensures ValueRefsIn(syn, names, Str(s), visited) <==>
      (syn.parse(s).Some? && syn.parse(s).value.name in names ==> syn.parse(s).value.name in visited)
  {}

  lemma TargetIsFinal(syn: Syntax, o: Order, trees: map<string, Json>, visited: set<string>, busy: set<string>,
                      n: string)
    requires ProgressAt(syn, o, trees, visited, busy) && n in visited && n !in busy
    ensures Acyclic(syn, o) && n in o.initial && n in trees && Final(syn, o, n) == Some(trees[n])
  {}

  lemma SubsetSame(a: map<string, Json>, b: map<string, Json>, ns: set<string>, n: string)
    requires SameTrees(a, b, ns) && n in ns
    ensures SameTrees(a, b, ns - {n}) && n in a && n in b && a[n] == b[n]
  {}

  lemma RewrittenElsewhere(a: map<string, Json>, b: map<string, Json>, ns: set<string>, n: string, x: Json)
    requires SameTrees(a, b, ns - {n})
    ensures SameTrees(a, b[n := x], ns - {n})
  {}

  lemma RootPath(v: Json)
    ensures GetValue(v, []) == Some(v)
  {}

  lemma RootRewritten(v: Json, x: Json)
    ensures GetValue(v, []).Some? && Put(v, [], x) == x
  {}

  lemma RootStaysObject(v: Json, e: ConcretePath, old': Json, x: Json)
    requires v.Obj? && GetValue(v, e) == Some(old') && !old'.Obj?
    ensures Put(v, e, x).Obj?
  {}

  // -------------------------------------- writing below a map or list in place

  lemma FieldAt(tree: Json, loc: ConcretePath, m: map<string, Json>, k: string)
    requires GetValue(tree, loc).Some? && k in m
    ensures GetValue(Put(tree, loc, Obj(m)), loc + [Fld(k)]) == Some(m[k])
  {
    GetPut(tree, loc, Obj(m));
    GetAppend(Put(tree, loc, Obj(m)), loc, [Fld(k)]);
    assert GetValue(Obj(m), [Fld(k)]) == Some(m[k]);
  }

  lemma WriteField(tree: Json, loc: ConcretePath, m: map<string, Json>, k: string, x: Json)
    requires GetValue(tree, loc).Some? && k in m
    ensures var t := Put(tree, loc, Obj(m));
            GetValue(t, loc + [Fld(k)]).Some? && Put(t, loc + [Fld(k)], x) == Put(tree, loc, Obj(m[k := x]))
  {
    FieldAt(tree, loc, m, k);
    var t := Put(tree, loc, Obj(m));
    GetPut(tree, loc, Obj(m));
    PutAppend(t, loc, [Fld(k)], x);
    assert Put(Obj(m), [Fld(k)], x) == Obj(m[k := x]);
    PutPut(tree, loc, Obj(m), Obj(m[k := x]));
  }

  lemma ItemAt(tree: Json, loc: ConcretePath, xs: seq<Json>, i: nat)
    requires GetValue(tree, loc).Some? && i < |xs|
    ensures GetValue(Put(tree, loc, Arr(xs)), loc + [Idx(i)]) == Some(xs[i])
  {
    GetPut(tree, loc, Arr(xs));
    GetAppend(Put(tree, loc, Arr(xs)), loc, [Idx(i)]);
    assert GetValue(Arr(xs), [Idx(i)]) == Some(xs[i]);
  }

  lemma WriteItem(tree: Json, loc: ConcretePath, xs: seq<Json>, i: nat, x: Json)
    requires GetValue(tree, loc).Some? && i < |xs|
    ensures var t := Put(tree, loc, Arr(xs));
            GetValue(t, loc + [Idx(i)]).Some? && Put(t, loc + [Idx(i)], x) == Put(tree, loc, Arr(xs[i := x]))
  {
    ItemAt(tree, loc, xs, i);
    var t := Put(tree, loc, Arr(xs));
    GetPut(tree, loc, Arr(xs));
    PutAppend(t, loc, [Idx(i)], x);
    assert Put(Arr(xs), [Idx(i)], x) == Arr(xs[i := x]);
    PutPut(tree, loc, Arr(xs), Arr(xs[i := x]));
  }

  // --------------------------------------------- resolving entry by entry

  ghost predicate ResolvedFields(syn: Syntax, o: Order, params: map<string, Json>, out: map<string, Json>,
                                 done: set<string>, r: nat, names: set<string>, visited: set<string>)
  {
    && Acyclic(syn, o) && RefsBelow(syn, o, Obj(params), r) && done <= params.Keys == out.Keys
    && forall k <- done ::
      && ResolvedValue(syn, o, params[k], r) == Some(out[k])
      && ValueRefsIn(syn, names, params[k], visited)
  }

  lemma NoFieldsResolved(syn: Syntax, o: Order, params: map<string, Json>, r: nat, names: set<string>,
                         visited: set<string>)
    requires Acyclic(syn, o) && RefsBelow(syn, o, Obj(params), r)
    ensures ResolvedFields(syn, o, params, params, {}, r, names, visited)
  {}

  lemma FieldRefsBelow(syn: Syntax, o: Order, params: map<string, Json>, k: string, r: nat)
    requires RefsBelow(syn, o, Obj(params), r) && k in params
    ensures ValueRefsBelow(syn, o, params[k], r)
  {}

  lemma FieldFails(syn: Syntax, o: Order, params: map<string, Json>, k: string, r: nat)
    requires Acyclic(syn, o) && RefsBelow(syn, o, Obj(params), r) && k in params
    requires ResolvedValue(syn, o, params[k], r).None?
    ensures Resolved(syn, o, Obj(params), r).None?
  {}

  lemma FieldsStep(syn: Syntax, o: Order, params: map<string, Json>, out: map<string, Json>, done: set<string>,
                   k: string, x: Json, r: nat, names: set<string>, visited: set<string>, visited': set<string>)
    requires ResolvedFields(syn, o, params, out, done, r, names, visited) && k in params && k !in done
    requires visited <= visited' && ValueRefsIn(syn, names, params[k], visited')
    requires ResolvedValue(syn, o, params[k], r) == Some(x)
    ensures ResolvedFields(syn, o, params, out[k := x], done + {k}, r, names, visited')
  {
    hide Acyclic, RefsBelow, ValueRefsBelow, ResolvedValue, ValueRefsIn;
    forall j <- done
      ensures ValueRefsIn(syn, names, params[j], visited')
    {
      ValueRefsInMore(syn, names, params[j], visited, visited');
    }
  }

  lemma AllFieldsResolved(syn: Syntax, o: Order, params: map<string, Json>, out: map<string, Json>, r: nat,
                          names: set<string>, visited: set<string>)
    requires ResolvedFields(syn, o, params, out, params.Keys, r, names, visited)
    ensures Resolved(syn, o, Obj(params), r) == Some(Obj(out)) && RefsIn(syn, names, Obj(params), visited)
  {
    hide ValueRefsIn;
    assert forall k <- params :: ResolvedValue(syn, o, params[k], r) == Some(out[k]);
    var v := Resolved(syn, o, Obj(params), r);
    assert v.Some?;
    assert v.value.fields == out;
  }

  ghost predicate ResolvedItems(syn: Syntax, o: Order, es: seq<Json>, xs: seq<Json>, n: nat, r: nat,
                                names: set<string>, visited: set<string>)
  {
    && Acyclic(syn, o) && ValueRefsBelow(syn, o, Arr(es), r) && n <= |es| == |xs|
    && (forall i | 0 <= i < n :: Resolved(syn, o, es[i], r) == Some(xs[i]))
    && (forall i | 0 <= i < n :: RefsIn(syn, names, es[i], visited))
  }

  lemma NoItemsResolved(syn: Syntax, o: Order, es: seq<Json>, r: nat, names: set<string>, visited: set<string>)
    requires Acyclic(syn, o) && ValueRefsBelow(syn, o, Arr(es), r)
    ensures ResolvedItems(syn, o, es, es, 0, r, names, visited)
  {}

  lemma ItemRefsBelow(syn: Syntax, o: Order, es: seq<Json>, i: nat, r: nat)
    requires ValueRefsBelow(syn, o, Arr(es), r) && i < |es|
    ensures RefsBelow(syn, o, es[i], r)
  {}

  lemma ItemFails(syn: Syntax, o: Order, es: seq<Json>, i: nat, r: nat)
    requires Acyclic(syn, o) && ValueRefsBelow(syn, o, Arr(es), r) && i < |es|
    requires Resolved(syn, o, es[i], r).None?
    ensures ResolvedValue(syn, o, Arr(es), r).None?
  {}

  lemma ItemsStep(syn: Syntax, o: Order, es: seq<Json>, xs: seq<Json>, i: nat, y: Json, r: nat,
                  names: set<string>, visited: set<string>, visited': set<string>)
    requires ResolvedItems(syn, o, es, xs, i, r, names, visited) && i < |es| && visited <= visited'
    requires if es[i].Obj?
             then Resolved(syn, o, es[i], r) == Some(y) && RefsIn(syn, names, es[i], visited')
             else y == es[i]
    ensures ResolvedItems(syn, o, es, xs[i := y], i + 1, r, names, visited')
  {
    forall j | 0 <= j < i
      ensures RefsIn(syn, names, es[j], visited')
    {
      RefsInMore(syn, names, es[j], visited, visited');
    }
  }

  lemma AllItemsResolved(syn: Syntax, o: Order, es: seq<Json>, xs: seq<Json>, r: nat, names: set<string>,
                         visited: set<string>)
    requires ResolvedItems(syn, o, es, xs, |es|, r, names, visited)
    ensures ResolvedValue(syn, o, Arr(es), r) == Some(Arr(xs)) && ValueRefsIn(syn, names, Arr(es), visited)
  {
    assert xs == seq(|es|, i requires 0 <= i < |es| => Resolved(syn, o, es[i], r).value);
  }

  lemma FewerLeft(names: set<string>, visited: set<string>, visited': set<string>)
    requires visited <= visited'
    ensures |names - visited'| <= |names - visited|
  {
    assert names - visited == (names - visited') + (names * visited' - visited);
  }

  lemma OneLeftLess(names: set<string>, visited: set<string>, name: string)
    requires name in names && name !in visited
    ensures |names - (visited + {name})| < |names - visited|
  {
    assert names - visited == (names - (visited + {name})) + {name};
  }

  // ------------------------------------------------------------------- the laws

  /** A path from map to map, through items of lists, to a direct value of a map. */
  predicate Direct(v: Json, p: ConcretePath)
    decreases |p|
  {
    p != [] && p[0].Fld? && v.Obj? && p[0].name in v.fields &&
    var c := v.fields[p[0].name];
    || |p| == 1
    || (c.Obj? && Direct(c, p[1..]))
    || (c.Arr? && p[1].Idx? && p[1].i < |c.elems| && Direct(c.elems[p[1].i], p[2..]))
  }

  /** Resolution replaces strings by strings and nothing else. */
  lemma {:induction false} ShapeStays(syn: Syntax, o: Order, v: Json, r: nat, p: ConcretePath)
    requires Acyclic(syn, o) && RefsBelow(syn, o, v, r) && Resolved(syn, o, v, r).Some? && v.Obj?
    ensures var w := Resolved(syn, o, v, r).value;
            match GetString(v, p)
            case Found(_) => GetString(w, p).Found?
            case NotFound => GetString(w, p).NotFound?
            case LookupError => GetString(w, p).LookupError?
    decreases |p|, 1
  {
    if p != [] && p[0].Fld? && p[0].name in v.fields {
      ValueShapeStays(syn, o, v.fields[p[0].name], r, p[1..]);
    }
  }

  lemma {:induction false} ValueShapeStays(syn: Syntax, o: Order, c: Json, r: nat, p: ConcretePath)
    requires Acyclic(syn, o) && ValueRefsBelow(syn, o, c, r) && ResolvedValue(syn, o, c, r).Some?
    ensures var w := ResolvedValue(syn, o, c, r).value;
            match GetString(c, p)
            case Found(_) => GetString(w, p).Found?
            case NotFound => GetString(w, p).NotFound?
            case LookupError => GetString(w, p).LookupError?
    decreases |p|, 2
  {
    match c
    case Obj(_) => ShapeStays(syn, o, c, r, p);
    case Arr(es) =>
      if p != [] && p[0].Idx? && p[0].i < |es| && es[p[0].i].Obj? {
        assert Resolved(syn, o, es[p[0].i], r).Some?;
        ShapeStays(syn, o, es[p[0].i], r, p[1..]);
      }
    case _ =>
  }

  /** A string in a direct position resolves where it stands. */
  lemma {:induction false} DirectStringResolves(syn: Syntax, o: Order, v: Json, r: nat, p: ConcretePath, s: string)
    requires Acyclic(syn, o) && RefsBelow(syn, o, v, r) && Resolved(syn, o, v, r).Some?
    requires Direct(v, p) && GetValue(v, p) == Some(Str(s))
    ensures ValueRefsBelow(syn, o, Str(s), r)
    ensures ResolvedString(syn, o, s, r).Some?
    ensures GetValue(Resolved(syn, o, v, r).value, p) == ResolvedString(syn, o, s, r)
    decreases |p|
  {
    var c := v.fields[p[0].name];
    var w := Resolved(syn, o, v, r).value;
    assert ResolvedValue(syn, o, c, r) == Some(w.fields[p[0].name]);
    if |p| == 1 {
      assert c == Str(s);
    } else if c.Obj? {
      DirectStringResolves(syn, o, c, r, p[1..], s);
    } else {
      var i := p[1].i;
      assert p[1..][0] == p[1] && p[1..][1..] == p[2..];
      assert Resolved(syn, o, c.elems[i], r).Some?;
      DirectStringResolves(syn, o, c.elems[i], r, p[2..], s);
    }
  }

  /** In an acyclic context, a reference in a direct position whose target is a string in its
      manifest ends equal to the target's final value, whatever the order of the traversal. */
  lemma ReferenceEqualsTarget(syn: Syntax, o: Order, n: string, p: ConcretePath, s: string)
    requires Acyclic(syn, o) && n in o.initial && Final(syn, o, n).Some?
    requires Direct(o.initial[n], p) && GetValue(o.initial[n], p) == Some(Str(s))
    requires TargetIn(syn, o.initial.Keys, s).Some?
    requires var t := TargetIn(syn, o.initial.Keys, s).value;
             GetString(o.initial[t.name], syn.locate(t.name, t.attribute)).Found?
    ensures var t := TargetIn(syn, o.initial.Keys, s).value;
            && Final(syn, o, t.name).Some?
            && GetString(Final(syn, o, t.name).value, syn.locate(t.name, t.attribute)).Found?
            && GetValue(Final(syn, o, n).value, p) ==
               Some(Str(GetString(Final(syn, o, t.name).value, syn.locate(t.name, t.attribute)).s))
  {
    var t := TargetIn(syn, o.initial.Keys, s).value;
    DirectStringResolves(syn, o, o.initial[n], o.rank[n], p, s);
    assert Final(syn, o, t.name).Some?;
    ShapeStays(syn, o, o.initial[t.name], o.rank[t.name], syn.locate(t.name, t.attribute));
  }

  /** A reference in a direct position of a tree leads to a visited manifest. */
  lemma {:induction false} DirectTargetVisited(syn: Syntax, names: set<string>, v: Json, p: ConcretePath, s: string,
                                               visited: set<string>)
    requires RefsIn(syn, names, v, visited) && Direct(v, p) && GetValue(v, p) == Some(Str(s))
    ensures ValueRefsIn(syn, names, Str(s), visited)
    decreases |p|
  {
    var c := v.fields[p[0].name];
    assert ValueRefsIn(syn, names, c, visited);
    if |p| == 1 {
      assert c == Str(s);
    } else if c.Obj? {
      DirectTargetVisited(syn, names, c, p[1..], s, visited);
    } else {
      assert p[1..][0] == p[1] && p[1..][1..] == p[2..];
      DirectTargetVisited(syn, names, c.elems[p[1].i], p[2..], s, visited);
    }
  }

  /** What has become of a string in a direct position, said of the manifests alone: a reference into the context
      has the string its target has now, or is as it was if the target has no such field (nor ever had one that is a
      string); any other string is as it was. */
  ghost predicate SettledAt(syn: Syntax, before: map<string, Json>, trees: map<string, Json>, visited: set<string>,
                            n: string, p: ConcretePath, s: string)
    requires n in trees
  {
    match TargetIn(syn, before.Keys, s)
    case None => GetValue(trees[n], p) == Some(Str(s))
    case Some(t) =>
      var path := syn.locate(t.name, t.attribute);
      t.name in visited && t.name in trees &&
      (GetString(before[t.name], path).Found? <==> GetString(trees[t.name], path).Found?) &&
      match GetString(trees[t.name], path)
      case Found(x) => GetValue(trees[n], p) == Some(Str(x))
      case NotFound => GetValue(trees[n], p) == Some(Str(s))
      case LookupError => false
  }

  /** Every visited manifest is settled, every other one untouched. */
  ghost predicate Settled(syn: Syntax, before: map<string, Json>, trees: map<string, Json>, visited: set<string>) {
    && trees.Keys == before.Keys && visited <= trees.Keys
    && (forall n <- trees | n !in visited :: trees[n] == before[n])
    && (forall n, p, s | n in visited && Direct(before[n], p) && GetValue(before[n], p) == Some(Str(s)) ::
          SettledAt(syn, before, trees, visited, n, p, s))
  }

  /** Once nothing is being worked on, the context is settled. */
  lemma ProgressSettles(syn: Syntax, o: Order, trees: map<string, Json>, visited: set<string>)
    requires ProgressAt(syn, o, trees, visited, {})
    ensures Settled(syn, o.initial, trees, visited)
  {
    forall n, p, s | n in visited && Direct(o.initial[n], p) && GetValue(o.initial[n], p) == Some(Str(s))
      ensures SettledAt(syn, o.initial, trees, visited, n, p, s)
    {
      ReferenceSettles(syn, o, trees, visited, n, p, s);
    }
  }

  lemma ReferenceSettles(syn: Syntax, o: Order, trees: map<string, Json>, visited: set<string>,
                         n: string, p: ConcretePath, s: string)
    requires ProgressAt(syn, o, trees, visited, {}) && n in visited
    requires Direct(o.initial[n], p) && GetValue(o.initial[n], p) == Some(Str(s))
    ensures SettledAt(syn, o.initial, trees, visited, n, p, s)
  {
    hide RefsBelow, ValueRefsBelow, RefsIn, Direct, GetValue, GetString, Resolved;
    assert Final(syn, o, n) == Some(trees[n]) && RefsIn(syn, trees.Keys, o.initial[n], visited);
    DirectStringResolves(syn, o, o.initial[n], o.rank[n], p, s);
    DirectTargetVisited(syn, trees.Keys, o.initial[n], p, s, visited);
    var t := TargetIn(syn, o.initial.Keys, s);
    if t.Some? {
      var m := t.value.name;
      assert Final(syn, o, m) == Some(trees[m]);
      ShapeStays(syn, o, o.initial[m], o.rank[m], syn.locate(m, t.value.attribute));
    }
  }

  /** The manifest of one example, from a context of which nothing has been visited. */
  method ResolveFrom(syn: Syntax, manifests: map<string, Json>, root: string, ghost order: Option<Order>)
    returns (trees: map<string, Json>, visited: set<string>, err: bool)
    requires root in manifests && forall n <- manifests :: manifests[n].Obj?
    requires order.Some? ==> Acyclic(syn, order.value) && order.value.initial == manifests
    ensures trees.Keys == manifests.Keys && root in visited
    ensures order.Some? ==> (err <==> Final(syn, order.value, root).None?)
    ensures order.Some? && !err ==> Settled(syn, manifests, trees, visited)
  {
    hide ProgressAt, Acyclic, RefsBelow, Final, Settled, AllObjects, VisitedOnce, SameTrees;
    var ctx := new ResolutionContext(syn, manifests);
    if order.Some? {
      ResolutionStarts(syn, order.value);
      ProgressFacts(syn, order.value, ctx.trees, ctx.refsResolved, {});
    }
    err := ctx.ResolveReferencesOfPaved(root, order, {});
    trees, visited := ctx.trees, ctx.refsResolved;
    if order.Some? && !err {
      TargetIsFinal(syn, order.value, trees, visited, {}, root);
      ProgressSettles(syn, order.value, trees, visited);
    }
  }

  /** All manifests of a context, in any order, up to the first that fails. */
  method ResolveAll(syn: Syntax, manifests: map<string, Json>, ghost order: Option<Order>)
    returns (trees: map<string, Json>, err: bool)
    requires forall n <- manifests :: manifests[n].Obj?
    requires order.Some? ==> Acyclic(syn, order.value) && order.value.initial == manifests
    ensures trees.Keys == manifests.Keys
    ensures order.Some? ==> (err <==> exists n :: n in manifests && Final(syn, order.value, n).None?)
    ensures order.Some? && !err ==> forall n <- manifests :: Final(syn, order.value, n) == Some(trees[n])
    ensures order.Some? && !err ==> Settled(syn, manifests, trees, manifests.Keys)
  {
    hide ProgressAt, Acyclic, RefsBelow, Final, Settled, AllObjects, VisitedOnce, SameTrees;
    var ctx := new ResolutionContext(syn, manifests);
    if order.Some? {
      ResolutionStarts(syn, order.value);
    }
    err := false;
    var todo := manifests.Keys;
    while todo != {}
      invariant todo <= manifests.Keys && ctx.syn == syn
      invariant fresh(ctx) && ctx.Valid() && ctx.trees.Keys == manifests.Keys
      invariant manifests.Keys - todo <= ctx.refsResolved
      invariant order.Some? ==> ProgressAt(syn, order.value, ctx.trees, ctx.refsResolved, {})
    {
      var n :| n in todo;
      if order.Some? {
        ProgressFacts(syn, order.value, ctx.trees, ctx.refsResolved, {});
      }
      err := ctx.ResolveReferencesOfPaved(n, order, {});
      if err {
        trees := ctx.trees;
        return;
      }
      todo := todo - {n};
    }
    trees := ctx.trees;
    assert ctx.refsResolved == manifests.Keys;
    if order.Some? {
      forall n <- manifests
        ensures Final(syn, order.value, n) == Some(trees[n])
      {
        TargetIsFinal(syn, order.value, trees, ctx.refsResolved, {}, n);
      }
      ProgressSettles(syn, order.value, trees, ctx.refsResolved);
    }
  }

  /** Where a run starts: nothing visited, nothing being worked on. */
  lemma ResolutionStarts(syn: Syntax, o: Order)
    requires Acyclic(syn, o)
    ensures ProgressAt(syn, o, o.initial, {}, {})
  {}
}
