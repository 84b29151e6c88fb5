/** The runtime conversion of `pkg/config/tf_conversion.go` from end to end: the schema is traversed, its singleton
    lists are registered, and parameters are converted with the registered paths in both directions. */
module TerraformConversion {
  import opened JsonDocument
  import opened ListConversion
  import opened ListConversionLaws
  import opened SchemaTraversal
  import opened Wrappers

  datatype Exchange = FromTerraform | ToTerraform

  function DirectionOf(x: Exchange): Mode {
    match x
    case FromTerraform => ToEmbeddedObject
    case ToTerraform => ToSingletonList
  }

  /** The keys of the registered conversions, in no particular order. */
  method TFListConversionPaths(cfg: ResourceConfig) returns (l: seq<Path>)
    ensures NoDuplicates(l) && Covers(l, cfg.listConversionPaths.Keys)
  {
    l := [];
    var todo := cfg.listConversionPaths.Keys;
    while todo != {}
      invariant todo <= cfg.listConversionPaths.Keys
      invariant NoDuplicates(l)
      invariant forall p: Path :: p in l <==> p in cfg.listConversionPaths.Keys && p !in todo
    {
      var p :| p in todo;
      l := l + [p];
      todo := todo - {p};
    }
  }

  lemma {:induction false} ResourcePathsAreFields(r: Resource, p: Path)
    requires p in ResourcePaths(r)
    ensures Registered(p)
    decreases r
  {
    var k, q :| k in r.entries && q in EntryPaths(r.entries[k]) && p == [F(k)] + q;
    if q != [] {
      var below := DescendsToField(r.entries[k], q);
      ResourcePathsAreFields(r.entries[k].elem, below);
    }
  }

  /** Below the entry itself, a path ends in a path of the nested resource. */
  lemma DescendsToField(e: Entry, q: Path) returns (below: Path)
    requires q in EntryPaths(e) && q != []
    ensures e.WithResource? && below in ResourcePaths(e.elem) && q == Below(e.ty) + below
  {
    hide ResourcePaths;
    below :| below in ResourcePaths(e.elem) && q == Below(e.ty) + below;
  }

  lemma RegisteredKeys(camel: string -> string, ps: set<Path>)
    ensures Registrations(camel, [], ps).Keys == ps
  {
    hide CRDPath;
    forall p: Path
      ensures [] + p == p
    {}
    assert (set p | p in ps :: [] + p) == ps;
  }

  lemma EmptyCRDPath(camel: string -> string)
    ensures CRDPath(camel, []) == []
  {}

  /** A configuration in which exactly the singleton lists of the schema are registered. */
  method TraverseSchemas(r: Resource, camel: string -> string) returns (cfg: ResourceConfig)
    ensures cfg.listConversionPaths.Keys == ResourcePaths(r) && cfg.EmbedsRegistered()
  {
    hide Registrations, ResourcePaths, CRDPath;
    cfg := new ResourceConfig();
    EmptyCRDPath(camel);
    Traverse(r, [], [], camel, cfg);
    RegisteredKeys(camel, ResourcePaths(r));
  }

  /** One conversion of the parameters: the structural conversion of the schema. */
  method ConvertParameters(params: Json, r: Resource, cfg: ResourceConfig, x: Exchange) returns (m: Option<Json>)
    requires cfg.listConversionPaths.Keys == ResourcePaths(r)
    requires Shaped(SourceSide(DirectionOf(x)), r, params)
    ensures m == Converted(DirectionOf(x), r, params)
  {
    hide Shaped, Converted;
    var paths := TFListConversionPaths(cfg);
    forall p <- paths
      ensures Registered(p)
    {
      ResourcePathsAreFields(r, p);
    }
    ConversionRefinesRecursion(DirectionOf(x), r, paths, params);
    ShapedIsObject(SourceSide(DirectionOf(x)), r, params);
    m := Convert(params, paths, DirectionOf(x));
  }

  lemma ShapedIsObject(side: Side, r: Resource, v: Json)
    requires Shaped(side, r, v)
    ensures v.Obj?
  {}

  /** What goes to Terraform comes back as it was, with every registered list a singleton on the way. */
  method ToTerraformAndBack(r: Resource, camel: string -> string, params: Json)
    returns (tf: Option<Json>, back: Option<Json>)
    requires Shaped(CRD, r, params)
    ensures tf.Some? && Shaped(TF, r, tf.value) && ListsWithin(1, 1, r, tf.value)
    ensures back == Some(params)
  {
    hide Shaped, Converted, ListsWithin;
    var cfg := TraverseSchemas(r, camel);
    ToListsSucceeds(r, params);
    ObjectsRoundTrip(r, params);
    tf := ConvertParameters(params, r, cfg, ToTerraform);
    back := ConvertParameters(tf.value, r, cfg, FromTerraform);
  }

  /** What comes from Terraform is refused exactly when a registered list has several items; else it goes back as
      it came exactly when no registered list was empty. */
  method FromTerraformAndBack(r: Resource, camel: string -> string, state: Json)
    returns (crd: Option<Json>, back: Option<Json>)
    requires Shaped(TF, r, state)
    ensures crd.Some? <==> ListsWithin(0, 1, r, state)
    ensures crd.Some? ==> Shaped(CRD, r, crd.value) && (back == Some(state) <==> ListsWithin(1, 1, r, state))
  {
    hide Shaped, Converted, ListsWithin;
    var cfg := TraverseSchemas(r, camel);
    ToObjectsSucceedsIff(r, state);
    crd := ConvertParameters(state, r, cfg, FromTerraform);
    back := None;
    if crd.Some? {
      ListsRoundTripIff(r, state);
      back := ConvertParameters(crd.value, r, cfg, ToTerraform);
    }
  }
}
