/** The OpenAPI (proto) schema graph and the meaning of a depth-first walk
    over it by the browser's schema visitor.

    A Kind's fields appear in the order `Kind.Keys()` yields them; the
    outcome of `explain.LookupSchemaForField` for each key is part of the
    data (`Resolved` or `Unresolved`). References are resolved through the
    definitions map. */
module Proto {
  import opened Kube
  import opened GoStrings

  datatype Schema =
    | Kind(fields: seq<Field>)
    | Array(sub: Schema)
    | Map(sub: Schema)
    | Ref(name: string)
    | Primitive

  datatype Field = Field(key: string, lookup: Lookup)

  /** What explain.LookupSchemaForField answers for one key of a Kind. */
  datatype Lookup = Resolved(schema: Schema) | Unresolved(reason: Error)

  type Definitions = map<string, Schema>

  /** The visitor's fields: the path of the field entered last, the paths
      recorded so far with their schemas, the last lookup error, and the
      references the walk is currently inside. */
  datatype Walk = Walk(prevPath: string, pathSchema: map<string, Schema>, err: Option<Error>, visited: set<string>)

  /** Size of a schema term, the structural part of the walk's termination
      measure. */
  function Size(s: Schema): nat
  {
    match s
    case Kind(fields) => 1 + FieldsSize(fields)
    case Array(sub) => 1 + Size(sub)
    case Map(sub) => 1 + Size(sub)
    case Ref(_) => 1
    case Primitive => 1
  }

  function FieldsSize(fields: seq<Field>): nat
  {
    if |fields| == 0 then 0
    else
      (match fields[0].lookup
       case Resolved(sub) => 1 + Size(sub)
       case Unresolved(_) => 1)
      + FieldsSize(fields[1..])
  }

  /** A resolved field's schema is smaller than the fields it is one of. */
  lemma {:induction false} FieldSizeBound(fields: seq<Field>, i: nat)
    requires i < |fields| && fields[i].lookup.Resolved?
    ensures Size(fields[i].lookup.schema) < FieldsSize(fields)
    decreases i
  {
    if i > 0 {
      assert fields[1..][i - 1] == fields[i];
      FieldSizeBound(fields[1..], i - 1);
    }
  }

  /** Reference names not yet entered on the current branch: the other
      part of the termination measure. */
  function Unvisited(defs: Definitions, visited: set<string>): nat
  {
    |defs.Keys - visited|
  }

  lemma UnvisitedShrinks(defs: Definitions, visited: set<string>, name: string)
    requires name in defs && name !in visited
    ensures Unvisited(defs, visited + {name}) < Unvisited(defs, visited)
  {
    var a := defs.Keys - (visited + {name});
    var b := defs.Keys - visited;
    assert b == a + {name};
  }

  /** `strings.Join([]string{prev, key}, ".")`. */
  function FieldPath(prev: string, key: string): (p: string)
    ensures p == prev + "." + key
  {
    assert [prev, key][1..] == [key];
    assert Join([key], ".") == key;
    Join([prev, key], ".")
  }

  /** `s.Accept(v)` on a visitor in state `w`. The set of references the
      walk is inside is the same afterwards, and no recorded path is lost. */
  function Accept(defs: Definitions, s: Schema, w: Walk): (r: Walk)
    ensures r.visited == w.visited
    ensures w.pathSchema.Keys <= r.pathSchema.Keys
    decreases Unvisited(defs, w.visited), Size(s), 1
  {
    match s
    case Kind(fields) => VisitFields(defs, fields, w.prevPath, w)
    case Array(sub) => Accept(defs, sub, w)
    case Map(sub) => Accept(defs, sub, w)
    case Primitive => w
    case Ref(name) =>
      if name in w.visited || name !in defs then w
      else
        UnvisitedShrinks(defs, w.visited, name);
        var inner := Accept(defs, defs[name], w.(visited := w.visited + {name}));
        inner.(visited := inner.visited - {name})
  }

  /** The second loop of VisitKind over the keys not yet visited. Every
      key's path extends `prefix`, the previous path when the Kind was
      entered (the source computes all of them before the loop). A key's
      path is recorded and becomes the previous path, then the key's schema
      is visited; the first failing lookup sets the error and ends this
      Kind. */
  function VisitFields(defs: Definitions, fields: seq<Field>, prefix: string, w: Walk): (r: Walk)
    ensures r.visited == w.visited
    ensures w.pathSchema.Keys <= r.pathSchema.Keys
    decreases Unvisited(defs, w.visited), FieldsSize(fields), 0
  {
    if |fields| == 0 then w
    else
      match fields[0].lookup
      case Unresolved(e) => w.(err := Some(e))
      case Resolved(sub) =>
        var p := FieldPath(prefix, fields[0].key);
        var w1 := Accept(defs, sub, w.(pathSchema := w.pathSchema[p := sub], prevPath := p));
        VisitFields(defs, fields[1..], prefix, w1)
  }

  /** One iteration of the field loop at key `i`, when its lookup fails. */
  lemma VisitFieldsFailStep(defs: Definitions, fields: seq<Field>, prefix: string, i: nat, w: Walk)
    requires i < |fields| && fields[i].lookup.Unresolved?
    ensures VisitFields(defs, fields[i..], prefix, w) == w.(err := Some(fields[i].lookup.reason))
  {
    assert fields[i..][0] == fields[i];
  }

  /** One iteration of the field loop at key `i`, when its lookup succeeds:
      `w1` is the state after recording the key's path. */
  lemma VisitFieldsStep(defs: Definitions, fields: seq<Field>, prefix: string, i: nat, w: Walk, w1: Walk)
    requires i < |fields| && fields[i].lookup.Resolved?
    requires w1 == w.(pathSchema := w.pathSchema[FieldPath(prefix, fields[i].key) := fields[i].lookup.schema],
                      prevPath := FieldPath(prefix, fields[i].key))
    ensures VisitFields(defs, fields[i..], prefix, w)
         == VisitFields(defs, fields[i + 1..], prefix, Accept(defs, fields[i].lookup.schema, w1))
  {
    assert fields[i..][0] == fields[i] && fields[i..][1..] == fields[i + 1..];
  }

  /** `x` is one of the paths below `prefix` that a walk of `s` records,
      defined without visitor state: each resolved field before the first
      failing one contributes its own path and the paths below it, arrays
      and maps are transparent, and a reference contributes nothing when it
      is already being walked. */
  ghost predicate Reaches(defs: Definitions, s: Schema, prefix: string, stack: set<string>, x: string)
    decreases Unvisited(defs, stack), Size(s), 1
  {
    match s
    case Kind(fields) => FieldsReach(defs, fields, prefix, stack, x)
    case Array(sub) => Reaches(defs, sub, prefix, stack, x)
    case Map(sub) => Reaches(defs, sub, prefix, stack, x)
    case Primitive => false
    case Ref(name) =>
      if name in stack || name !in defs then false
      else
        UnvisitedShrinks(defs, stack, name);
        Reaches(defs, defs[name], prefix, stack + {name}, x)
  }

  ghost predicate FieldsReach(defs: Definitions, fields: seq<Field>, prefix: string, stack: set<string>, x: string)
    decreases Unvisited(defs, stack), FieldsSize(fields), 0
  {
    && |fields| > 0
    && fields[0].lookup.Resolved?
    && var p := FieldPath(prefix, fields[0].key);
      || x == p
      || Reaches(defs, fields[0].lookup.schema, p, stack, x)
      || FieldsReach(defs, fields[1..], prefix, stack, x)
  }

  /** Some lookup the walk of `s` performs fails. */
  ghost predicate Fails(defs: Definitions, s: Schema, stack: set<string>)
    decreases Unvisited(defs, stack), Size(s), 1
  {
    match s
    case Kind(fields) => FieldsFail(defs, fields, stack)
    case Array(sub) => Fails(defs, sub, stack)
    case Map(sub) => Fails(defs, sub, stack)
    case Primitive => false
    case Ref(name) =>
      if name in stack || name !in defs then false
      else
        UnvisitedShrinks(defs, stack, name);
        Fails(defs, defs[name], stack + {name})
  }

  ghost predicate FieldsFail(defs: Definitions, fields: seq<Field>, stack: set<string>)
    decreases Unvisited(defs, stack), FieldsSize(fields), 0
  {
    && |fields| > 0
    && (fields[0].lookup.Unresolved?
        || Fails(defs, fields[0].lookup.schema, stack)
        || FieldsFail(defs, fields[1..], stack))
  }

  /** A path is recorded after the walk exactly when it was recorded
      before or the walk reaches it. */
  lemma {:induction false} AcceptKeys(defs: Definitions, s: Schema, w: Walk, x: string)
    ensures x in Accept(defs, s, w).pathSchema <==> x in w.pathSchema || Reaches(defs, s, w.prevPath, w.visited, x)
    decreases Unvisited(defs, w.visited), Size(s), 1
  {
    match s
    case Kind(fields) =>
      VisitFieldsKeys(defs, fields, w.prevPath, w, x);
    case Array(sub) =>
      AcceptKeys(defs, sub, w, x);
    case Map(sub) =>
      AcceptKeys(defs, sub, w, x);
    case Primitive =>
    case Ref(name) =>
      if name !in w.visited && name in defs {
        UnvisitedShrinks(defs, w.visited, name);
        AcceptKeys(defs, defs[name], w.(visited := w.visited + {name}), x);
      }
  }

  lemma {:induction false} VisitFieldsKeys(defs: Definitions, fields: seq<Field>, prefix: string, w: Walk, x: string)
    ensures x in VisitFields(defs, fields, prefix, w).pathSchema
        <==> x in w.pathSchema || FieldsReach(defs, fields, prefix, w.visited, x)
    decreases Unvisited(defs, w.visited), FieldsSize(fields), 0
  {
    if |fields| > 0 && fields[0].lookup.Resolved? {
      var sub := fields[0].lookup.schema;
      var p := FieldPath(prefix, fields[0].key);
      var w0 := w.(pathSchema := w.pathSchema[p := sub], prevPath := p);
      AcceptKeys(defs, sub, w0, x);
      VisitFieldsKeys(defs, fields[1..], prefix, Accept(defs, sub, w0), x);
    }
  }

  /** The walk ends without an error exactly when it started without one
      and none of the lookups it performs fails. */
  lemma {:induction false} AcceptErrors(defs: Definitions, s: Schema, w: Walk)
    ensures Accept(defs, s, w).err.None? <==> w.err.None? && !Fails(defs, s, w.visited)
    decreases Unvisited(defs, w.visited), Size(s), 1
  {
    match s
    case Kind(fields) =>
      VisitFieldsErrors(defs, fields, w.prevPath, w);
    case Array(sub) =>
      AcceptErrors(defs, sub, w);
    case Map(sub) =>
      AcceptErrors(defs, sub, w);
    case Primitive =>
    case Ref(name) =>
      if name !in w.visited && name in defs {
        UnvisitedShrinks(defs, w.visited, name);
        AcceptErrors(defs, defs[name], w.(visited := w.visited + {name}));
      }
  }

  lemma {:induction false} VisitFieldsErrors(defs: Definitions, fields: seq<Field>, prefix: string, w: Walk)
    ensures VisitFields(defs, fields, prefix, w).err.None? <==> w.err.None? && !FieldsFail(defs, fields, w.visited)
    decreases Unvisited(defs, w.visited), FieldsSize(fields), 0
  {
    if |fields| > 0 && fields[0].lookup.Resolved? {
      var sub := fields[0].lookup.schema;
      var p := FieldPath(prefix, fields[0].key);
      var w0 := w.(pathSchema := w.pathSchema[p := sub], prevPath := p);
      AcceptErrors(defs, sub, w0);
      VisitFieldsErrors(defs, fields[1..], prefix, Accept(defs, sub, w0));
    }
  }

  /** Every path a walk reaches extends `prefix` by a dot and more. */
  lemma {:induction false} ReachesPrefixed(defs: Definitions, s: Schema, prefix: string, stack: set<string>, x: string)
    requires Reaches(defs, s, prefix, stack, x)
    ensures IsPrefix(prefix + ".", x)
    decreases Unvisited(defs, stack), Size(s), 1
  {
    match s
    case Kind(fields) =>
      FieldsReachPrefixed(defs, fields, prefix, stack, x);
    case Array(sub) =>
      ReachesPrefixed(defs, sub, prefix, stack, x);
    case Map(sub) =>
      ReachesPrefixed(defs, sub, prefix, stack, x);
    case Ref(name) =>
      UnvisitedShrinks(defs, stack, name);
      ReachesPrefixed(defs, defs[name], prefix, stack + {name}, x);
  }

  lemma {:induction false} FieldsReachPrefixed(defs: Definitions, fields: seq<Field>, prefix: string, stack: set<string>, x: string)
    requires FieldsReach(defs, fields, prefix, stack, x)
    ensures IsPrefix(prefix + ".", x)
    decreases Unvisited(defs, stack), FieldsSize(fields), 0
  {
    var q := FieldPath(prefix, fields[0].key);
    if x == q {
      assert x[..|prefix + "."|] == prefix + ".";
    } else if Reaches(defs, fields[0].lookup.schema, q, stack, x) {
      ReachesPrefixed(defs, fields[0].lookup.schema, q, stack, x);
      assert x[..|q + "."|] == q + ".";
      assert x[..|prefix + "."|] == (q + ".")[..|prefix + "."|];
    } else {
      FieldsReachPrefixed(defs, fields[1..], prefix, stack, x);
    }
  }
}
