/** The schema traversal of `pkg/schema/traverser/traverse.go` and the visitor of
    `pkg/config/schema_conversions.go` that registers singleton lists for conversion. */
module SchemaTraversal {
  import opened JsonDocument
  import opened ListConversion

  datatype SchemaType = TypeList | TypeSet | TypeMap | TypeObject

  /** A schema entry: `Plain` has no nested resource (a primitive, or a collection of them). */
  datatype Entry = Plain | WithResource(ty: SchemaType, maxItems: int, elem: Resource)

  datatype Resource = Resource(entries: map<string, Entry>)

  predicate Embeddable(e: Entry) {
    e.WithResource? && (e.ty == TypeList || e.ty == TypeSet) && e.maxItems == 1
  }

  /** The paths of the singleton lists at or below an entry, relative to it. */
  function EntryPaths(e: Entry): set<Path> {
    match e
    case Plain => {}
    case WithResource(ty, _, elem) =>
      (if Embeddable(e) then {[]} else {}) +
      (set p | p in ResourcePaths(elem) :: Below(ty) + p)
  }

  function ResourcePaths(r: Resource): set<Path> {
    set k, p | k in r.entries && p in EntryPaths(r.entries[k]) :: [F(k)] + p
  }

  /** Elements of collections sit below a wildcard, those of object-typed entries do not. */
  function Below(ty: SchemaType): Path {
    if ty == TypeObject then [] else [W]
  }

  /** A path without its wildcards, as the schema element options know it. */
  function Plainly(p: Path): Path {
    if p == [] then [] else if p[0] == W then Plainly(p[1..]) else [p[0]] + Plainly(p[1..])
  }

  /** The resource configuration the visitor registers with: Terraform paths to CRD paths, and the schema elements
      that are to be generated as embedded objects. */
  class ResourceConfig {
    var listConversionPaths: map<Path, Path>
    var embeddedObjects: set<Path>

    constructor ()
      ensures listConversionPaths == map[] && embeddedObjects == {}
    {
      listConversionPaths, embeddedObjects := map[], {};
    }

    /** Exactly the elements at registered paths are embedded. */
    ghost predicate EmbedsRegistered()
      reads this
    {
      embeddedObjects == set p | p in listConversionPaths :: Plainly(p)
    }

    method AddSingletonListConversion(tfPath: Path, crdPath: Path)
      modifies this
      ensures listConversionPaths == old(listConversionPaths)[tfPath := crdPath]
      ensures embeddedObjects == old(embeddedObjects) + {Plainly(tfPath)}
      ensures old(EmbedsRegistered()) ==> EmbedsRegistered()
    {
      embeddedObjects := embeddedObjects + {Plainly(tfPath)};
      listConversionPaths := listConversionPaths[tfPath := crdPath];
    }

    method VisitResource(e: Entry, tfPath: Path, crdPath: Path)
      requires e.WithResource?
      modifies this
      ensures listConversionPaths ==
              if Embeddable(e) then old(listConversionPaths)[tfPath := crdPath] else old(listConversionPaths)
      ensures embeddedObjects == old(embeddedObjects) + if Embeddable(e) then {Plainly(tfPath)} else {}
      ensures old(EmbedsRegistered()) ==> EmbedsRegistered()
    {
      if e.ty != TypeList && e.ty != TypeSet {
        return;
      }
      if e.maxItems != 1 {
        return;
      }
      AddSingletonListConversion(tfPath, crdPath);
    }
  }

  /** The CRD path of a Terraform path: every field name in lower camel case. */
  function CRDPath(camel: string -> string, p: Path): (c: Path)
    ensures |c| == |p|
    ensures forall i | 0 <= i < |p| :: c[i] == match p[i] case F(n) => F(camel(n)) case W => W
  {
    seq(|p|, i requires 0 <= i < |p| => match p[i] case F(n) => F(camel(n)) case W => W)
  }

  /** The registrations for a set of paths below a node. */
  function Registrations(camel: string -> string, prefix: Path, ps: set<Path>): map<Path, Path> {
    map q | q in (set p | p in ps :: prefix + p) :: CRDPath(camel, q)
  }

  function EntriesPaths(r: Resource, ks: set<string>): set<Path>
    requires ks <= r.entries.Keys
  {
    set k, p | k in ks && p in EntryPaths(r.entries[k]) :: [F(k)] + p
  }

  lemma RegistrationsUnion(camel: string -> string, prefix: Path, a: set<Path>, b: set<Path>)
    ensures Registrations(camel, prefix, a + b) ==
            Registrations(camel, prefix, a) + Registrations(camel, prefix, b)
  {}

  lemma RegistrationsBelow(camel: string -> string, prefix: Path, more: Path, ps: set<Path>)
    ensures Registrations(camel, prefix + more, ps) ==
            Registrations(camel, prefix, set p | p in ps :: more + p)
  {
    var l, r := Registrations(camel, prefix + more, ps), Registrations(camel, prefix, set p | p in ps :: more + p);
    forall q
      ensures q in l <==> q in r
    {
      if q in l {
        var p :| p in ps && q == prefix + more + p;
        assert q == prefix + (more + p);
      }
      if q in r {
        var p :| p in ps && q == prefix + (more + p);
        assert q == prefix + more + p;
      }
    }
  }

  /** The registration of an entry itself. */
  lemma OwnRegistration(camel: string -> string, tfPath: Path)
    ensures Registrations(camel, tfPath, {[]}) == map[tfPath := CRDPath(camel, tfPath)]
  {
    hide CRDPath;
    assert tfPath + [] == tfPath;
    assert (set p | p in {[]} :: tfPath + p) == {tfPath};
  }

  lemma NoneRegistered(camel: string -> string, tfPath: Path)
    ensures Registrations(camel, tfPath, {}) == map[]
  {
    hide CRDPath;
  }

  lemma EntryPathsSplit(e: Entry)
    requires e.WithResource?
    ensures EntryPaths(e) ==
      (if Embeddable(e) then {[]} else {}) + (set p | p in ResourcePaths(e.elem) :: Below(e.ty) + p)
  {
    hide ResourcePaths;
  }

  /** What visiting one entry and then traversing below it registers. */
  lemma EntryRegistrations(camel: string -> string, tfPath: Path, e: Entry)
    requires e.WithResource?
    ensures Registrations(camel, tfPath, EntryPaths(e)) ==
            (if Embeddable(e) then map[tfPath := CRDPath(camel, tfPath)] else map[]) +
            Registrations(camel, tfPath + Below(e.ty), ResourcePaths(e.elem))
  {
    hide Registrations, EntryPaths, ResourcePaths, CRDPath, Below;
    EntryPathsSplit(e);
    OwnRegistration(camel, tfPath);
    NoneRegistered(camel, tfPath);
    RegistrationsUnion(camel, tfPath, if Embeddable(e) then {[]} else {},
                       set p | p in ResourcePaths(e.elem) :: Below(e.ty) + p);
    RegistrationsBelow(camel, tfPath, Below(e.ty), ResourcePaths(e.elem));
  }

  lemma EntriesStep(camel: string -> string, prefix: Path, r: Resource, done: set<string>, k: string)
    requires done <= r.entries.Keys && k in r.entries
    ensures Registrations(camel, prefix, EntriesPaths(r, done + {k})) ==
            Registrations(camel, prefix, EntriesPaths(r, done)) +
            Registrations(camel, prefix + [F(k)], EntryPaths(r.entries[k]))
  {
    var below := set p | p in EntryPaths(r.entries[k]) :: [F(k)] + p;
    assert EntriesPaths(r, done + {k}) == EntriesPaths(r, done) + below;
    RegistrationsUnion(camel, prefix, EntriesPaths(r, done), below);
    RegistrationsBelow(camel, prefix, [F(k)], EntryPaths(r.entries[k]));
  }

  /** traverse with a SingletonListEmbedder: exactly the singleton lists below the node get
      registered, whatever the iteration order, and older registrations stay. */
  method Traverse(r: Resource, tfPrefix: Path, crdPrefix: Path, camel: string -> string, cfg: ResourceConfig)
    requires crdPrefix == CRDPath(camel, tfPrefix)
    modifies cfg
    ensures cfg.listConversionPaths ==
            old(cfg.listConversionPaths) + Registrations(camel, tfPrefix, ResourcePaths(r))
    ensures old(cfg.EmbedsRegistered()) ==> cfg.EmbedsRegistered()
    decreases r
  {
    hide EntryPaths, Registrations, EntriesPaths, ResourcePaths, ResourceConfig.EmbedsRegistered;
    var todo := r.entries.Keys;
    NoRegistrations(camel, tfPrefix, r);
    assert r.entries.Keys - todo == {};
    while todo != {}
      invariant todo <= r.entries.Keys
      invariant cfg.listConversionPaths ==
        old(cfg.listConversionPaths) + Registrations(camel, tfPrefix, EntriesPaths(r, r.entries.Keys - todo))
      invariant old(cfg.EmbedsRegistered()) ==> cfg.EmbedsRegistered()
    {
      var k :| k in todo;
      ghost var done := r.entries.Keys - todo;
      EntriesStep(camel, tfPrefix, r, done, k);
      assert crdPrefix + [F(camel(k))] == CRDPath(camel, tfPrefix + [F(k)]);
      VisitEntry(r, k, tfPrefix + [F(k)], crdPrefix + [F(camel(k))], camel, cfg);
      todo := todo - {k};
      assert r.entries.Keys - todo == done + {k};
    }
    assert r.entries.Keys - todo == r.entries.Keys;
    AllEntries(r);
  }

  lemma NoRegistrations(camel: string -> string, prefix: Path, r: Resource)
    ensures Registrations(camel, prefix, EntriesPaths(r, {})) == map[]
  {}

  lemma AllEntries(r: Resource)
    ensures EntriesPaths(r, r.entries.Keys) == ResourcePaths(r)
  {}

  lemma CRDPathBelow(camel: string -> string, p: Path, ty: SchemaType)
    ensures CRDPath(camel, p + Below(ty)) == CRDPath(camel, p) + Below(ty)
  {}

  lemma PlainRegistersNothing(camel: string -> string, prefix: Path, e: Entry)
    requires e.Plain?
    ensures Registrations(camel, prefix, EntryPaths(e)) == map[]
  {}

  /** The loop body of traverse: visit the entry, then descend into its nested resource. */
  method VisitEntry(r: Resource, k: string, tfPath: Path, crdPath: Path, camel: string -> string, cfg: ResourceConfig)
    requires k in r.entries && crdPath == CRDPath(camel, tfPath)
    modifies cfg
    ensures cfg.listConversionPaths ==
            old(cfg.listConversionPaths) + Registrations(camel, tfPath, EntryPaths(r.entries[k]))
    ensures old(cfg.EmbedsRegistered()) ==> cfg.EmbedsRegistered()
    decreases r, 0
  {
    hide EntryPaths, Registrations, ResourcePaths, CRDPath, ResourceConfig.EmbedsRegistered;
    var e := r.entries[k];
    if e.WithResource? {
      cfg.VisitResource(e, tfPath, crdPath);
      var tfBelow, crdBelow := tfPath, crdPath;
      if e.ty != TypeObject {
        tfBelow, crdBelow := tfPath + [W], crdPath + [W];
      }
      EntryRegistrations(camel, tfPath, e);
      assert tfBelow == tfPath + Below(e.ty);
      CRDPathBelow(camel, tfPath, e.ty);
      Traverse(e.elem, tfBelow, crdBelow, camel, cfg);
    } else {
      PlainRegistersNothing(camel, tfPath, e);
    }
  }
}
