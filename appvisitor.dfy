/** The schema visitor of pkg/app (and its copy in main.go): the same walk
    as pkg/apidocs, but paths are `path` records and the set of references
    being walked is one process-wide map shared by every visitor. */
module AppVisitor {
  import opened Kube
  import opened GoStrings
  import opened GoSort
  import opened Proto

  /** `type path struct { original string }`. */
  datatype Path = Path(original: string)

  /** The package-level `visitedReferences` map. */
  class ReferenceSet {
    var names: set<string>

    constructor ()
      ensures names == {}
    {
      names := {};
    }
  }

  /** The recorded paths by their text. `Path` has one field, so this loses
      nothing. */
  function Originals(m: map<Path, Schema>): map<string, Schema>
  {
    map p | p in m :: p.original := m[p]
  }

  lemma OriginalsUpdate(m: map<Path, Schema>, p: Path, s: Schema)
    ensures Originals(m[p := s]) == Originals(m)[p.original := s]
  {
  }

  class SchemaVisitor {
    var prevPath: Path
    var pathSchema: map<Path, Schema>
    var err: Option<Error>
    /** The process-wide set; it is not owned by the visitor. */
    const visitedReferences: ReferenceSet

    /** The visitor as getPaths builds it, sharing the global set. */
    constructor (prevPath: Path, visitedReferences: ReferenceSet)
      ensures this.prevPath == prevPath && pathSchema == map[] && err == None
      ensures this.visitedReferences == visitedReferences
    {
      this.prevPath := prevPath;
      pathSchema := map[];
      err := None;
      this.visitedReferences := visitedReferences;
    }

    function State(): Walk
      reads this, visitedReferences
    {
      Walk(prevPath.original, Originals(pathSchema), err, visitedReferences.names)
    }

    method Accept(defs: Definitions, s: Schema)
      modifies this, visitedReferences
      ensures State() == Proto.Accept(defs, s, old(State()))
      decreases Unvisited(defs, visitedReferences.names), Size(s), 2
    {
      match s
      case Kind(fields) => VisitKind(defs, fields);
      case Array(sub) => VisitArray(defs, sub);
      case Map(sub) => VisitMap(defs, sub);
      case Ref(name) => VisitReference(defs, name);
      case Primitive => VisitPrimitive();
    }

    method VisitKind(defs: Definitions, fields: seq<Field>)
      modifies this, visitedReferences
      ensures State() == VisitFields(defs, fields, old(prevPath.original), old(State()))
      decreases Unvisited(defs, visitedReferences.names), 1 + FieldsSize(fields), 1
    {
      var prefix := prevPath.original;
      var paths: seq<Path> := [];
      for i := 0 to |fields|
        invariant |paths| == i
        invariant forall j :: 0 <= j < i ==> paths[j] == Path(FieldPath(prefix, fields[j].key))
      {
        paths := paths + [Path(FieldPath(prevPath.original, fields[i].key))];
      }
      ghost var target := VisitFields(defs, fields, prefix, State());
      var i := 0;
      while i < |fields|
        invariant 0 <= i <= |fields|
        invariant visitedReferences.names == old(visitedReferences.names)
        invariant VisitFields(defs, fields[i..], prefix, State()) == target
      {
        match fields[i].lookup
        case Unresolved(e) =>
          VisitFieldsFailStep(defs, fields, prefix, i, State());
          err := Some(e);
          return;
        case Resolved(sub) =>
          ghost var w := State();
          OriginalsUpdate(pathSchema, paths[i], sub);
          pathSchema := pathSchema[paths[i] := sub];
          prevPath := paths[i];
          VisitFieldsStep(defs, fields, prefix, i, w, State());
          FieldSizeBound(fields, i);
          Accept(defs, sub);
        i := i + 1;
      }
    }

    /** Consults and updates the process-wide set. */
    method VisitReference(defs: Definitions, name: string)
      modifies this, visitedReferences
      ensures State() == Proto.Accept(defs, Ref(name), old(State()))
      decreases Unvisited(defs, visitedReferences.names), 1, 1
    {
      if name in visitedReferences.names {
        return;
      }
      visitedReferences.names := visitedReferences.names + {name};
      if name in defs {
        UnvisitedShrinks(defs, old(visitedReferences.names), name);
        Accept(defs, defs[name]);
      }
      visitedReferences.names := visitedReferences.names - {name};
    }

    method VisitPrimitive()
      ensures State() == old(State())
    {
    }

    method VisitArray(defs: Definitions, sub: Schema)
      modifies this, visitedReferences
      ensures State() == Proto.Accept(defs, sub, old(State()))
      decreases Unvisited(defs, visitedReferences.names), 1 + Size(sub), 1
    {
      Accept(defs, sub);
    }

    method VisitMap(defs: Definitions, sub: Schema)
      modifies this, visitedReferences
      ensures State() == Proto.Accept(defs, sub, old(State()))
      decreases Unvisited(defs, visitedReferences.names), 1 + Size(sub), 1
    {
      Accept(defs, sub);
    }

    /** Every recorded path once, in ascending order of `original`. */
    method ListPaths() returns (paths: seq<Path>)
      ensures Distinct(paths)
      ensures forall p :: p in paths <==> p in pathSchema
      ensures forall i, j :: 0 <= i < j < |paths| ==> LexLess(paths[i].original, paths[j].original)
    {
      var keys := MapKeys(pathSchema);
      paths := SortBy(keys, (p: Path) => p.original);
      SortByKeysAscend(keys, (p: Path) => p.original);
      DistinctPermutation(keys, paths);
      forall i, j | 0 <= i < j < |paths| ensures LexLess(paths[i].original, paths[j].original) {
        LexLessTotal(paths[i].original, paths[j].original);
      }
      assert forall p :: p in paths <==> p in multiset(keys);
    }
  }
}
