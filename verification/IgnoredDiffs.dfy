/** The paths that only `spec.initProvider` sets (`pkg/controller/ignored_tfpluginsdk.go`), and the filter that takes
    them out of a computed diff (`filterInitExclusiveDiffs` of `pkg/controller/external_tfpluginsdk.go`). A key of
    a diff is the sequence of its dot-separated components, so that "below a path" is "having it as a prefix". */
module IgnoredDiffs {
  import opened Numerals
  import opened Wrappers

  datatype Param = Null | Leaf(value: string) | List(items: seq<Param>) | Map(fields: map<string, Param>)

  type Key = seq<string>

  ghost function Decimals(n: nat): set<string> {
    if n == 0 then {} else Decimals(n - 1) + {Decimal(n - 1)}
  }

  lemma {:induction false} DecimalsHold(n: nat, m: nat)
    ensures Decimal(m) in Decimals(n) <==> m < n
  {
    hide Decimal;
    if n > 0 {
      DecimalsHold(n - 1, m);
      if Decimal(m) == Decimal(n - 1) {
        DecimalInjective(m, n - 1);
      }
    }
  }

  // ------------------------------------------------------------ positions in a tree

  ghost function Child(v: Param, c: string): Option<Param> {
    if v.Map? then
      if c in v.fields then Some(v.fields[c]) else None
    else if v.List? && exists n :: 0 <= n < |v.items| && Decimal(n) == c then
      var n :| 0 <= n < |v.items| && Decimal(n) == c;
      Some(v.items[n])
    else
      None
  }

  lemma ItemAt(v: Param, n: nat)
    requires v.List?
    ensures Child(v, Decimal(n)) == if n < |v.items| then Some(v.items[n]) else None
  {
    forall m: nat | Decimal(m) == Decimal(n)
      ensures m == n
    {
      DecimalInjective(m, n);
    }
  }

  ghost function Get(v: Param, p: Key): Option<Param> {
    if p == [] then Some(v)
    else if Child(v, p[0]).None? then None
    else Get(Child(v, p[0]).value, p[1..])
  }

  /** A value set at the position; a null field of a map counts as absent, a null item of a list does not. */
  ghost predicate Set(v: Param, p: Key) {
    p != [] && Get(v, p).Some? && Get(v, p[..|p| - 1]).Some? &&
    (Get(v, p).value.Null? ==> Get(v, p[..|p| - 1]).value.List?)
  }

  /** Only initProvider has the position, while both have the map or list it is in. */
  ghost predicate Exclusive(forProvider: Param, initProvider: Param, p: Key) {
    Set(initProvider, p) && Get(forProvider, p).None? && Get(forProvider, p[..|p| - 1]).Some?
  }

  /** Wherever initProvider holds a map or a list and forProvider holds anything, the two are alike. */
  ghost predicate SameTyped(forProvider: Param, initProvider: Param)
    decreases initProvider
  {
    match initProvider
    case Map(fields) =>
      forProvider.Map? &&
      forall k <- fields | k in forProvider.fields && !fields[k].Null? :: SameTyped(forProvider.fields[k], fields[k])
    case List(items) =>
      forProvider.List? &&
      forall n | 0 <= n < |items| && n < |forProvider.items| :: SameTyped(forProvider.items[n], items[n])
    case _ => true
  }

  // ------------------------------------------------------- paths of initProvider only

  /** The paths found below `prefix` for one pair of values, each once. */
  ghost predicate Found(forProvider: Param, initProvider: Param, prefix: Key, ignored: seq<Key>) {
    && (forall p <- ignored :: prefix <= p && Exclusive(forProvider, initProvider, p[|prefix|..]))
    && (forall q | Exclusive(forProvider, initProvider, q) :: prefix + q in ignored)
    && (forall a, b | 0 <= a < b < |ignored| :: ignored[a] != ignored[b])
  }

  /** Found, for the fields or items in `done` alone. */
  ghost predicate FoundAmong(forProvider: Param, initProvider: Param, prefix: Key, done: set<string>,
                             ignored: seq<Key>)
  {
    && (forall p <- ignored ::
          prefix <= p && Exclusive(forProvider, initProvider, p[|prefix|..]) && p[|prefix|] in done)
    && (forall q | Exclusive(forProvider, initProvider, q) && q[0] in done :: prefix + q in ignored)
    && (forall a, b | 0 <= a < b < |ignored| :: ignored[a] != ignored[b])
  }

  lemma FoundNone(forProvider: Param, initProvider: Param, prefix: Key)
    ensures FoundAmong(forProvider, initProvider, prefix, {}, [])
  {}

  lemma ExclusiveStep(forProvider: Param, initProvider: Param, c: string, q: Key)
    requires q != []
    ensures Exclusive(forProvider, initProvider, [c] + q) <==>
      Child(forProvider, c).Some? && Child(initProvider, c).Some? &&
      Exclusive(Child(forProvider, c).value, Child(initProvider, c).value, q)
  {
    assert ([c] + q)[1..] == q;
    assert ([c] + q)[..|q|] == [c] + q[..|q| - 1];
    assert ([c] + q[..|q| - 1])[1..] == q[..|q| - 1];
  }

  lemma ExclusiveHere(forProvider: Param, initProvider: Param, c: string)
    ensures Exclusive(forProvider, initProvider, [c]) <==>
      Child(forProvider, c).None? && Child(initProvider, c).Some? &&
      (Child(initProvider, c).value.Null? ==> initProvider.List?)
  {
    assert [c][..0] == [] && [c][1..] == [];
    assert Get(initProvider, [c]) == Child(initProvider, c);
    assert Get(forProvider, [c]) == Child(forProvider, c);
  }

  /** The same for one field or item of both. */
  lemma Descend(forProvider: Param, initProvider: Param, prefix: Key, c: string, ignored: seq<Key>)
    requires Child(forProvider, c).Some? && Child(initProvider, c).Some?
    requires Found(Child(forProvider, c).value, Child(initProvider, c).value, prefix + [c], ignored)
    ensures FoundAmong(forProvider, initProvider, prefix, {c}, ignored)
  {
    forall p <- ignored
      ensures prefix <= p && Exclusive(forProvider, initProvider, p[|prefix|..]) && p[|prefix|] in {c}
    {
      assert (prefix + [c])[|prefix|] == c == p[|prefix|];
      assert p[|prefix|..] == [c] + p[|prefix| + 1..];
      ExclusiveStep(forProvider, initProvider, c, p[|prefix| + 1..]);
    }
    ExclusiveHere(forProvider, initProvider, c);
    forall q | Exclusive(forProvider, initProvider, q) && q[0] in {c}
      ensures prefix + q in ignored
    {
      var rest := q[1..];
      assert q == [c] + rest;
      assert rest != [] by {
        assert rest == [] ==> q == [c];
      }
      ExclusiveStep(forProvider, initProvider, c, rest);
      assert prefix + q == (prefix + [c]) + rest;
    }
  }

  /** Nothing of a null field, of a leaf, or of a field that is not there. */
  lemma Missing(forProvider: Param, initProvider: Param, prefix: Key, c: string)
    requires Child(forProvider, c).None?
    ensures FoundAmong(forProvider, initProvider, prefix, {c},
                       if Exclusive(forProvider, initProvider, [c]) then [prefix + [c]] else [])
  {
    hide Exclusive, Child;
    forall q: Key | q != [] && q[0] == c && q != [c]
      ensures !Exclusive(forProvider, initProvider, q)
    {
      assert q == [c] + q[1..];
      ExclusiveStep(forProvider, initProvider, c, q[1..]);
    }
    NeverHere(forProvider, initProvider);
    assert (prefix + [c])[|prefix|..] == [c];
  }

  lemma NeverHere(forProvider: Param, initProvider: Param)
    ensures !Exclusive(forProvider, initProvider, [])
  {}

  lemma Childless(forProvider: Param, initProvider: Param, prefix: Key)
    requires initProvider.Null? || initProvider.Leaf?
    ensures Found(forProvider, initProvider, prefix, [])
  {}

  /** A path found goes on below the prefix, through one of the fields or items visited. */
  lemma FoundHead(forProvider: Param, initProvider: Param, prefix: Key, done: set<string>, ignored: seq<Key>, a: nat)
    requires FoundAmong(forProvider, initProvider, prefix, done, ignored) && a < |ignored|
    ensures |ignored[a]| > |prefix| && ignored[a][|prefix|] in done
  {
    var p := ignored[a];
    assert p in ignored;
    assert p[|prefix|..] != [];
  }

  lemma Extend(forProvider: Param, initProvider: Param, prefix: Key, done: set<string>, ignored: seq<Key>,
               c: string, more: seq<Key>)
    requires FoundAmong(forProvider, initProvider, prefix, done, ignored) && c !in done
    requires FoundAmong(forProvider, initProvider, prefix, {c}, more)
    ensures FoundAmong(forProvider, initProvider, prefix, done + {c}, ignored + more)
  {
    var all := ignored + more;
    forall a, b | 0 <= a < b < |all|
      ensures all[a] != all[b]
    {
      if a < |ignored| <= b {
        FoundHead(forProvider, initProvider, prefix, done, ignored, a);
        FoundHead(forProvider, initProvider, prefix, {c}, more, b - |ignored|);
      }
      assert all[a] == if a < |ignored| then ignored[a] else more[a - |ignored|];
      assert all[b] == if b < |ignored| then ignored[b] else more[b - |ignored|];
    }
  }

  lemma FoundAll(forProvider: Param, initProvider: Param, prefix: Key, done: set<string>, ignored: seq<Key>)
    requires FoundAmong(forProvider, initProvider, prefix, done, ignored)
    requires forall c | Child(initProvider, c).Some? :: c in done
    ensures Found(forProvider, initProvider, prefix, ignored)
  {
    forall q | Exclusive(forProvider, initProvider, q)
      ensures prefix + q in ignored
    {
      assert Child(initProvider, q[0]).Some?;
    }
  }

  /** The fields of a map, visited in no particular order. */
  method GetIgnoredFieldsMap(prefix: Key, forProvider: map<string, Param>, initProvider: map<string, Param>)
    returns (ignored: seq<Key>)
    requires SameTyped(Map(forProvider), Map(initProvider))
    ensures Found(Map(forProvider), Map(initProvider), prefix, ignored)
    decreases Map(initProvider), 0
  {
    hide Found, FoundAmong, Exclusive;
    ignored := [];
    var todo := initProvider.Keys;
    ghost var f, i := Map(forProvider), Map(initProvider);
    FoundNone(f, i, prefix);
    assert initProvider.Keys - todo == {};
    while todo != {}
      invariant todo <= initProvider.Keys
      invariant FoundAmong(f, i, prefix, initProvider.Keys - todo, ignored)
    {
      var k :| k in todo;
      ghost var done := initProvider.Keys - todo;
      todo := todo - {k};
      assert initProvider.Keys - todo == done + {k};
      var v := initProvider[k];
      var more := [];
      ExclusiveHere(f, i, k);
      if v.Null? {
        if k in forProvider {
          Childless(forProvider[k], v, prefix + [k]);
          Descend(f, i, prefix, k, []);
        } else {
          Missing(f, i, prefix, k);
        }
      } else if k !in forProvider {
        more := [prefix + [k]];
        Missing(f, i, prefix, k);
      } else {
        more := GetIgnoredField(prefix + [k], forProvider[k], v);
        Descend(f, i, prefix, k, more);
      }
      Extend(f, i, prefix, done, ignored, k, more);
      ignored := ignored + more;
    }
    assert initProvider.Keys - todo == initProvider.Keys;
    FoundAll(f, i, prefix, initProvider.Keys, ignored);
  }

  /** A field or item that both have: only maps and arrays have more below them. */
  method GetIgnoredField(prefix: Key, forProvider: Param, initProvider: Param) returns (ignored: seq<Key>)
    requires SameTyped(forProvider, initProvider)
    ensures Found(forProvider, initProvider, prefix, ignored)
    decreases initProvider, 1
  {
    hide Found;
    ignored := [];
    match initProvider
    case Map(fields) => ignored := GetIgnoredFieldsMap(prefix, forProvider.fields, fields);
    case List(items) => ignored := GetIgnoredFieldsArray(prefix, forProvider.items, items);
    case _ => Childless(forProvider, initProvider, prefix);
  }

  method GetIgnoredFieldsArray(prefix: Key, forProvider: seq<Param>, initProvider: seq<Param>)
    returns (ignored: seq<Key>)
    requires SameTyped(List(forProvider), List(initProvider))
    ensures Found(List(forProvider), List(initProvider), prefix, ignored)
    decreases List(initProvider), 0
  {
    hide Found, FoundAmong, Exclusive;
    ignored := [];
    ghost var f, i := List(forProvider), List(initProvider);
    FoundNone(f, i, prefix);
    for n := 0 to |initProvider|
      invariant FoundAmong(f, i, prefix, Decimals(n), ignored)
    {
      var more := [prefix + [Decimal(n)]];
      ItemAt(f, n);
      ItemAt(i, n);
      ExclusiveHere(f, i, Decimal(n));
      if n < |forProvider| {
        more := GetIgnoredField(prefix + [Decimal(n)], forProvider[n], initProvider[n]);
        Descend(f, i, prefix, Decimal(n), more);
      } else {
        Missing(f, i, prefix, Decimal(n));
      }
      DecimalsHold(n, n);
      Extend(f, i, prefix, Decimals(n), ignored, Decimal(n), more);
      ignored := ignored + more;
    }
    forall m: nat {
      DecimalsHold(|initProvider|, m);
    }
    FoundAll(f, i, prefix, Decimals(|initProvider|), ignored);
  }

  /** No exclusive path lies below another. */
  lemma PrefixFree(forProvider: Param, initProvider: Param, p: Key, q: Key)
    requires Exclusive(forProvider, initProvider, p) && Exclusive(forProvider, initProvider, q) && p <= q
    ensures p == q
  {
    if p != q {
      GetPrefix(forProvider, q[..|q| - 1], p);
    }
  }

  lemma {:induction false} GetPrefix(v: Param, q: Key, p: Key)
    requires p <= q && Get(v, q).Some?
    ensures Get(v, p).Some? && Get(v, q) == Get(Get(v, p).value, q[|p|..])
  {
    if p != [] {
      GetPrefix(Child(v, p[0]).value, q[1..], p[1..]);
      assert q[1..][|p| - 1..] == q[|p|..];
    }
  }

  /** What initProvider sets is missing from forProvider exactly when it lies at or below an exclusive path. */
  lemma {:induction false} CoveredIff(forProvider: Param, initProvider: Param, q: Key)
    requires Set(initProvider, q)
    ensures Get(forProvider, q).None? <==> exists p :: p <= q && Exclusive(forProvider, initProvider, p)
  {
    if p :| p <= q && Exclusive(forProvider, initProvider, p) {
      if Get(forProvider, q).Some? {
        GetPrefix(forProvider, q, p);
      }
    }
    if Get(forProvider, q).None? {
      var _ := ExclusivePrefix(forProvider, initProvider, q);
    }
  }

  lemma {:induction false} ExclusivePrefix(forProvider: Param, initProvider: Param, q: Key) returns (p: Key)
    requires Set(initProvider, q) && Get(forProvider, q).None?
    ensures p <= q && Exclusive(forProvider, initProvider, p)
  {
    var up := q[..|q| - 1];
    if Get(forProvider, up).Some? {
      p := q;
    } else {
      GetPrefix(initProvider, q, up);
      GetPrefix(initProvider, up, up[..|up| - 1]);
      assert !Get(initProvider, up).value.Null?;
      p := ExclusivePrefix(forProvider, initProvider, up);
    }
  }

  // ---------------------------------------------------------------- the diff filter

  function TagsAll(k: Key): Key
    requires k != []
  {
    ["tags_all"] + k[1..]
  }

  function Tags(k: Key): Key
    requires k != []
  {
    ["tags"] + k[1..]
  }

  ghost predicate Below(ignored: seq<Key>, k: Key) {
    exists p <- ignored :: p <= k
  }

  /** The copy under tags_all of a key of the diff that is to go. */
  ghost predicate Twin(ignored: seq<Key>, keys: set<Key>, k: Key) {
    k != [] && k[0] == "tags_all" && Tags(k) in keys && Below(ignored, Tags(k))
  }

  /** The length keys of the collection that an ignored path is in. */
  function LengthKeys(p: Key): set<Key>
    requires p != []
  {
    if |p| < 2 then {}
    else
      {p[..|p| - 1] + ["%"], p[..|p| - 1] + ["#"]} +
      if p[0] == "tags" then {TagsAll(p[..|p| - 1]) + ["%"]} else {}
  }

  ghost predicate Length(ignored: seq<Key>, k: Key) {
    exists p <- ignored :: p != [] && k in LengthKeys(p)
  }

  ghost predicate ExclusiveBelow(forProvider: Param, initProvider: Param, k: Key) {
    exists p :: p <= k && Exclusive(forProvider, initProvider, p)
  }

  /** What filtering takes out of a diff that has these keys. */
  ghost predicate Filtered(forProvider: Param, initProvider: Param, keys: set<Key>, k: Key) {
    || ExclusiveBelow(forProvider, initProvider, k)
    || (k != [] && k[0] == "tags_all" && Tags(k) in keys && ExclusiveBelow(forProvider, initProvider, Tags(k)))
    || (exists p :: Exclusive(forProvider, initProvider, p) && k in LengthKeys(p))
  }

  ghost function Remaining(forProvider: Param, initProvider: Param, keys: set<Key>): set<Key> {
    set k | k in keys && !Filtered(forProvider, initProvider, keys, k)
  }

  lemma FilteredByPaths(forProvider: Param, initProvider: Param, paths: seq<Key>, keys: set<Key>, k: Key)
    requires forall p :: p in paths <==> Exclusive(forProvider, initProvider, p)
    ensures Filtered(forProvider, initProvider, keys, k) <==>
      Below(paths, k) || Twin(paths, keys, k) || Length(paths, k)
  {
    hide Get;
  }

  ghost predicate Copy(path: Key, keys: set<Key>, k: Key) {
    k != [] && k[0] == "tags_all" && Tags(k) in keys && path <= Tags(k)
  }

  lemma CopyStep(path: Key, keys: set<Key>, todo: set<Key>, key: Key, k: Key)
    requires key in todo && todo <= keys && key != []
    ensures Copy(path, keys - (todo - {key}), k) ==
      (Copy(path, keys - todo, k) || (path <= key && key[0] == "tags" && k == TagsAll(key)))
  {
    if k != [] && k[0] == "tags_all" && Tags(k) == key {
      assert k == TagsAll(key);
    }
    assert Tags(TagsAll(key)) == ["tags"] + key[1..];
    assert key[0] == "tags" ==> Tags(TagsAll(key)) == key;
  }

  lemma OneMore(paths: seq<Key>, p: Key, keys: set<Key>, k: Key)
    ensures Below(paths + [p], k) == (Below(paths, k) || p <= k)
    ensures Twin(paths + [p], keys, k) ==
      (Twin(paths, keys, k) || Copy(p, keys, k))
    ensures p != [] ==> Length(paths + [p], k) == (Length(paths, k) || k in LengthKeys(p))
  {
    forall j: Key | Below(paths, j) || p <= j
      ensures Below(paths + [p], j)
    {
      assert p in paths + [p];
      if q :| q in paths && q <= j {
        assert q in paths + [p];
      }
    }
    assert p in paths + [p];
    if Length(paths, k) {
      var q :| q in paths && q != [] && k in LengthKeys(q);
      assert q in paths + [p];
    }
  }

  class InstanceDiff<Diff> {
    var attributes: map<Key, Diff>

    constructor (attributes: map<Key, Diff>)
      ensures this.attributes == attributes
    {
      this.attributes := attributes;
    }

    /** Removes exactly the filtered keys, whatever order paths and keys are visited in. */
    method FilterInitExclusiveDiffs(forProvider: map<string, Param>, initProvider: map<string, Param>)
      requires SameTyped(Map(forProvider), Map(initProvider))
      requires forall k <- attributes :: k != []
      modifies this
      ensures attributes.Keys == Remaining(Map(forProvider), Map(initProvider), old(attributes.Keys))
      ensures forall k <- attributes :: attributes[k] == old(attributes[k])
    {
      hide Exclusive, Below, Twin, Length, Filtered;
      var paths := GetIgnoredFieldsMap([], forProvider, initProvider);
      FoundPaths(Map(forProvider), Map(initProvider), paths);
      ghost var keys := attributes.Keys;
      DeleteAllBelow(paths);
      DeleteLengthKeys(paths);
      forall k {
        FilteredByPaths(Map(forProvider), Map(initProvider), paths, keys, k);
      }
    }

    method DeleteAllBelow(paths: seq<Key>)
      requires forall k <- attributes :: k != []
      modifies this
      ensures forall k :: k in attributes <==>
        k in old(attributes) && !Below(paths, k) && !Twin(paths, old(attributes.Keys), k)
      ensures forall k <- attributes :: attributes[k] == old(attributes[k])
    {
      ghost var keys := attributes.Keys;
      for i := 0 to |paths|
        invariant forall k :: k in attributes <==> k in keys && !Below(paths[..i], k) && !Twin(paths[..i], keys, k)
        invariant forall k <- attributes :: k != [] && attributes[k] == old(attributes[k])
      {
        DeleteBelow(paths[i]);
        assert paths[..i + 1] == paths[..i] + [paths[i]];
        forall k {
          OneMore(paths[..i], paths[i], keys, k);
        }
      }
      assert paths[..|paths|] == paths;
    }

    /** One round over the keys of the diff; a key that an earlier visit deleted is not visited. */
    method DeleteBelow(path: Key)
      requires forall k <- attributes :: k != []
      modifies this
      ensures forall k :: k in attributes <==>
        k in old(attributes) && !(path <= k) && !Copy(path, old(attributes.Keys), k)
      ensures forall k <- attributes :: attributes[k] == old(attributes[k])
    {
      var todo := attributes.Keys;
      ghost var keys := attributes.Keys;
      while todo != {}
        invariant todo <= keys
        invariant forall k :: k in attributes <==>
          k in keys && !(k !in todo && path <= k) && !Copy(path, keys - todo, k)
        invariant forall k <- attributes :: k != [] && attributes[k] == old(attributes[k])
      {
        var key :| key in todo;
        ghost var before := todo;
        todo := todo - {key};
        forall k {
          CopyStep(path, keys, before, key, k);
        }
        if key in attributes && path <= key {
          attributes := attributes - {key};
          if key[0] == "tags" {
            attributes := attributes - {TagsAll(key)};
          }
        }
      }
    }

    method DeleteLengthKeys(paths: seq<Key>)
      requires [] !in paths
      modifies this
      ensures forall k :: k in attributes <==> k in old(attributes) && !Length(paths, k)
      ensures forall k <- attributes :: attributes[k] == old(attributes[k])
    {
      hide LengthKeys, Length, Below, Twin;
      LengthNone();
      for i := 0 to |paths|
        invariant forall k :: k in attributes <==> k in old(attributes) && !Length(paths[..i], k)
        invariant forall k <- attributes :: attributes[k] == old(attributes[k])
      {
        DeleteLengthKeysOf(paths[i]);
        assert paths[..i + 1] == paths[..i] + [paths[i]];
        forall k {
          OneMore(paths[..i], paths[i], {}, k);
        }
      }
      assert paths[..|paths|] == paths;
    }

    method DeleteLengthKeysOf(path: Key)
      requires path != []
      modifies this
      ensures attributes == old(attributes) - LengthKeys(path)
    {
      var components := path;
      if |components| >= 2 {
        var n := |components| - 1;
        attributes := attributes - {components[n := "%"]};
        attributes := attributes - {components[n := "#"]};
        assert path[..n] + ["%"] == path[n := "%"] && path[..n] + ["#"] == path[n := "#"];
        if components[0] == "tags" {
          components := components[0 := "tags_all"][n := "%"];
          assert components == TagsAll(path[..n]) + ["%"];
          attributes := attributes - {components};
        }
      }
    }
  }

  lemma LengthNone()
    ensures forall k :: !Length([], k)
  {}

  lemma FoundPaths(forProvider: Param, initProvider: Param, paths: seq<Key>)
    requires Found(forProvider, initProvider, [], paths)
    ensures forall p :: p in paths <==> Exclusive(forProvider, initProvider, p)
    ensures [] !in paths
  {
    forall q | Exclusive(forProvider, initProvider, q)
      ensures q in paths
    {
      assert [] + q == q;
    }
    forall p <- paths
      ensures Exclusive(forProvider, initProvider, p)
    {
      assert p[0..] == p;
    }
  }

  /** A field that initProvider alone sets leaves the diff, with every key below it. */
  lemma ExclusiveLeaves(forProvider: Param, initProvider: Param, keys: set<Key>, q: Key, k: Key)
    requires Set(initProvider, q) && Get(forProvider, q).None? && q <= k
    ensures Filtered(forProvider, initProvider, keys, k)
  {
    var p := ExclusivePrefix(forProvider, initProvider, q);
    assert p <= k;
  }

  /** A field that forProvider has stays in the diff, unless its key looks like a length or a tags_all copy. */
  lemma ForProviderStays(forProvider: Param, initProvider: Param, keys: set<Key>, k: Key)
    requires k != [] && Get(forProvider, k).Some?
    requires k[0] != "tags_all" && k[|k| - 1] != "%" && k[|k| - 1] != "#"
    ensures !Filtered(forProvider, initProvider, keys, k)
  {
    hide Child;
    forall p | p <= k
      ensures !Exclusive(forProvider, initProvider, p)
    {
      GetPrefix(forProvider, k, p);
    }
    forall p: Key | p != []
      ensures k !in LengthKeys(p)
    {}
  }

  /** What is left has nothing more to filter. */
  lemma FilterIdempotent(forProvider: Param, initProvider: Param, keys: set<Key>)
    ensures var left := Remaining(forProvider, initProvider, keys); Remaining(forProvider, initProvider, left) == left
  {
    hide Exclusive;
  }
}
