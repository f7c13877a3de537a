/** The schema visitor of pkg/apidocs: a mutable object whose methods walk
    a schema depth-first and record every field path. The set of references
    currently being walked belongs to the visitor object. */
module ApiDocsVisitor {
  import opened Kube
  import opened GoStrings
  import opened GoSort
  import opened Proto

  class SchemaVisitor {
    var prevPath: string
    var pathSchema: map<string, Schema>
    var err: Option<Error>
    var visitedReferences: set<string>

    /** The visitor as getPaths builds it: the given previous path, no
        paths, no error, no references entered. */
    constructor (prevPath: string)
      ensures State() == Walk(prevPath, map[], None, {})
    {
      this.prevPath := prevPath;
      pathSchema := map[];
      err := None;
      visitedReferences := {};
    }

    function State(): Walk
      reads this
    {
      Walk(prevPath, pathSchema, err, visitedReferences)
    }

    /** `s.Accept(v)`: dispatch on the kind of schema. */
    method Accept(defs: Definitions, s: Schema)
      modifies this
      ensures State() == Proto.Accept(defs, s, old(State()))
      decreases Unvisited(defs, visitedReferences), Size(s), 2
    {
      match s
      case Kind(fields) => VisitKind(defs, fields);
      case Array(sub) => VisitArray(defs, sub);
      case Map(sub) => VisitMap(defs, sub);
      case Ref(name) => VisitReference(defs, name);
      case Primitive => VisitPrimitive();
    }

    /** All paths are computed from the previous path at entry; then each
        key is looked up, recorded, made the previous path and visited,
        until a lookup fails. */
    method VisitKind(defs: Definitions, fields: seq<Field>)
      modifies this
      ensures State() == VisitFields(defs, fields, old(prevPath), old(State()))
      decreases Unvisited(defs, visitedReferences), 1 + FieldsSize(fields), 1
    {
      var prefix := prevPath;
      var paths: seq<string> := [];
      for i := 0 to |fields|
        invariant |paths| == i
        invariant forall j :: 0 <= j < i ==> paths[j] == FieldPath(prefix, fields[j].key)
      {
        paths := paths + [FieldPath(prevPath, fields[i].key)];
      }
      ghost var target := VisitFields(defs, fields, prefix, State());
      var i := 0;
      while i < |fields|
        invariant 0 <= i <= |fields|
        invariant visitedReferences == old(visitedReferences)
        invariant VisitFields(defs, fields[i..], prefix, State()) == target
      {
        match fields[i].lookup
        case Unresolved(e) =>
          VisitFieldsFailStep(defs, fields, prefix, i, State());
          err := Some(e);
          return;
        case Resolved(sub) =>
          ghost var w := State();
          pathSchema := pathSchema[paths[i] := sub];
          prevPath := paths[i];
          VisitFieldsStep(defs, fields, prefix, i, w, State());
          FieldSizeBound(fields, i);
          Accept(defs, sub);
        i := i + 1;
      }
    }

    /** A reference already being walked is skipped; otherwise it is added
        to the set, its schema is walked, and it is removed again. */
    method VisitReference(defs: Definitions, name: string)
      modifies this
      ensures State() == Proto.Accept(defs, Ref(name), old(State()))
      decreases Unvisited(defs, visitedReferences), 1, 1
    {
      if name in visitedReferences {
        return;
      }
      visitedReferences := visitedReferences + {name};
      if name in defs {
        UnvisitedShrinks(defs, old(visitedReferences), name);
        Accept(defs, defs[name]);
      }
      visitedReferences := visitedReferences - {name};
    }

    method VisitPrimitive()
      ensures State() == old(State())
    {
    }

    method VisitArray(defs: Definitions, sub: Schema)
      modifies this
      ensures State() == Proto.Accept(defs, sub, old(State()))
      decreases Unvisited(defs, visitedReferences), 1 + Size(sub), 1
    {
      Accept(defs, sub);
    }

    method VisitMap(defs: Definitions, sub: Schema)
      modifies this
      ensures State() == Proto.Accept(defs, sub, old(State()))
      decreases Unvisited(defs, visitedReferences), 1 + Size(sub), 1
    {
      Accept(defs, sub);
    }

    /** Every recorded path once, in ascending order. */
    method ListPaths() returns (paths: seq<string>)
      ensures Distinct(paths)
      ensures forall p :: p in paths <==> p in pathSchema
      ensures forall i, j :: 0 <= i < j < |paths| ==> LexLess(paths[i], paths[j])
    {
      paths := SortedKeys(pathSchema);
      AscendingSorted(pathSchema.Keys);
      AscendingDistinct(pathSchema.Keys);
    }
  }
}
