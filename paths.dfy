/** getPaths of pkg/apidocs (pkg/apidocs/ui.go, and the same function in
    pkg/apidocs/paths.go): build a visitor whose previous path is the
    lower-cased resource name, find the resource's kind and schema through
    the REST mapper and the OpenAPI resources, walk the schema and return
    the paths `listPaths` lists, in ascending order. paths.go ends with a
    call to getVisitedPaths, which is not defined anywhere; the model
    follows ui.go, which calls listPaths.

    The REST mapper's KindFor and the resources' LookupResource are
    parameters; the schema graph is the `Proto` model. */
module ApiDocsPaths {
  import opened Kube
  import opened GoStrings
  import opened GoSort
  import opened Proto
  import ApiDocsVisitor

  /** The walk getPaths starts from. */
  function Start(gvr: GVR): (w: Walk)
    ensures w.prevPath == ToLower(gvr.resource) && w.pathSchema == map[]
    ensures w.err == None && w.visited == {}
  {
    Walk(ToLower(gvr.resource), map[], None, {})
  }

  /** A walk from `Start(gvr)`: it fails exactly when some lookup on its
      way fails, and otherwise its paths are exactly the reachable ones,
      each below `resource + "."`. */
  lemma WalkFromStart(defs: Definitions, s: Schema, gvr: GVR)
    ensures Accept(defs, s, Start(gvr)).err.Some? <==> Fails(defs, s, {})
    ensures forall x :: x in Accept(defs, s, Start(gvr)).pathSchema <==> Reaches(defs, s, ToLower(gvr.resource), {}, x)
    ensures forall x | x in Accept(defs, s, Start(gvr)).pathSchema :: IsPrefix(ToLower(gvr.resource) + ".", x)
  {
    var w := Start(gvr);
    AcceptErrors(defs, s, w);
    forall x ensures x in Accept(defs, s, w).pathSchema <==> Reaches(defs, s, ToLower(gvr.resource), {}, x) {
      AcceptKeys(defs, s, w, x);
    }
    forall x | x in Accept(defs, s, w).pathSchema ensures IsPrefix(ToLower(gvr.resource) + ".", x) {
      AcceptKeys(defs, s, w, x);
      ReachesPrefixed(defs, s, ToLower(gvr.resource), {}, x);
    }
  }

  /** getPaths as written. A KindFor error is returned; a missing schema
      and a failed walk both return no paths and the (nil) KindFor error,
      so neither is reported; otherwise the reachable paths come back once
      each, in ascending order, each below the lower-cased resource name. */
  method GetPaths(kindFor: GVR -> Result<GVK>, lookupResource: GVK -> Option<Schema>, defs: Definitions, gvr: GVR)
    returns (paths: seq<string>, err: Option<Error>)
    ensures kindFor(gvr).Err? ==> paths == [] && err == Some(kindFor(gvr).error)
    ensures kindFor(gvr).Ok? ==> err == None
    ensures kindFor(gvr).Ok? && lookupResource(kindFor(gvr).value).None? ==> paths == []
    ensures kindFor(gvr).Ok? && lookupResource(kindFor(gvr).value).Some? ==>
      var s := lookupResource(kindFor(gvr).value).value;
      && (Fails(defs, s, {}) ==> paths == [])
      && (!Fails(defs, s, {}) ==>
            && Distinct(paths)
            && (forall i, j :: 0 <= i < j < |paths| ==> LexLess(paths[i], paths[j]))
            && (forall x :: x in paths <==> Reaches(defs, s, ToLower(gvr.resource), {}, x))
            && (forall x | x in paths :: IsPrefix(ToLower(gvr.resource) + ".", x)))
  {
    var visitor := new ApiDocsVisitor.SchemaVisitor(ToLower(gvr.resource));
    var gvk := kindFor(gvr);
    if gvk.Err? {
      return [], Some(gvk.error);
    }
    var protoSchema := lookupResource(gvk.value);
    if protoSchema.None? {
      return [], None;
    }
    visitor.Accept(defs, protoSchema.value);
    WalkFromStart(defs, protoSchema.value, gvr);
    if visitor.err.Some? {
      return [], None;
    }
    paths := visitor.ListPaths();
    err := None;
  }

  /** getPaths with the errors it drops reported: a missing schema is
      reported as such (as pkg/app/options.go does) and a failed walk
      returns the visitor's error. */
  method GetPathsReporting(kindFor: GVR -> Result<GVK>, lookupResource: GVK -> Option<Schema>, defs: Definitions, gvr: GVR)
    returns (paths: seq<string>, err: Option<Error>)
    ensures err.Some? ==> paths == []
    ensures kindFor(gvr).Err? ==> err == Some(kindFor(gvr).error)
    ensures kindFor(gvr).Ok? && lookupResource(kindFor(gvr).value).None? ==> err == Some(NoSchemaFound(kindFor(gvr).value))
    ensures kindFor(gvr).Ok? && lookupResource(kindFor(gvr).value).Some? ==>
      var s := lookupResource(kindFor(gvr).value).value;
      && (err.Some? <==> Fails(defs, s, {}))
      && (err.Some? ==> err == Accept(defs, s, Start(gvr)).err)
      && (err.None? ==>
            && Distinct(paths)
            && (forall i, j :: 0 <= i < j < |paths| ==> LexLess(paths[i], paths[j]))
            && (forall x :: x in paths <==> Reaches(defs, s, ToLower(gvr.resource), {}, x))
            && (forall x | x in paths :: IsPrefix(ToLower(gvr.resource) + ".", x)))
  {
    var visitor := new ApiDocsVisitor.SchemaVisitor(ToLower(gvr.resource));
    var gvk := kindFor(gvr);
    if gvk.Err? {
      return [], Some(gvk.error);
    }
    var protoSchema := lookupResource(gvk.value);
    if protoSchema.None? {
      return [], Some(NoSchemaFound(gvk.value));
    }
    visitor.Accept(defs, protoSchema.value);
    WalkFromStart(defs, protoSchema.value, gvr);
    if visitor.err.Some? {
      return [], visitor.err;
    }
    paths := visitor.ListPaths();
    err := None;
  }

  /** A Pod whose only field cannot be looked up. */
  function BrokenPod(): Schema
  {
    Kind([Field("spec", Unresolved(Failure("field not found")))])
  }

  /** As written, the failed lookup in BrokenPod is reported by nobody:
      getPaths returns no paths and no error although the walk fails. */
  method LostLookupError() returns (paths: seq<string>, err: Option<Error>)
    ensures Fails(map[], BrokenPod(), {})
    ensures paths == [] && err == None
  {
    assert FieldsFail(map[], BrokenPod().fields, {});
    paths, err := GetPaths(g => Ok(GVK("", "v1", "Pod")), k => Some(BrokenPod()), map[], GVR("", "v1", "pods"));
  }

  /** As written, a kind without a schema gives no paths and no error. */
  method LostMissingSchema() returns (paths: seq<string>, err: Option<Error>)
    ensures paths == [] && err == None
  {
    paths, err := GetPaths(g => Ok(GVK("", "v1", "Pod")), k => None, map[], GVR("", "v1", "pods"));
  }
}
