/** The catalog loops of RunApp (pkg/apidocs/ui.go) and of main: the
    discovered API groups, ordered by customSortGroups with its
    seven-entry priority list, become group nodes below the root, each
    holding one resource node per resource in ascending name order, with
    the resource's fields below it.

    The two loops differ only in their getPaths. RunApp's returns an error
    only when KindFor fails, and then the process ends; a missing schema
    or a failed walk comes back as no paths at all. main.go's getPaths ends
    the process on any of the three failures and registers an explainer
    for every path it returns and for the resource itself. In both, a
    resource with no paths makes `tmpNode.GetChildren()[0]` panic. */
module Catalog {
  import opened Kube
  import opened GoStrings
  import opened GoSort
  import opened Proto
  import opened TView
  import opened GroupSort
  import opened FieldsUI
  import ApiDocsPaths
  import AppVisitor

  /** How the loop ends: it completes, log.Fatal ends the process (with
      the error it was given, which may be nil), or an index panics. */
  datatype Ending = Running | Fatal(err: Option<Error>) | Panic

  /** The program whose loop runs, with its collaborators: the REST
      mapper's KindFor, the OpenAPI resources' LookupResource and the
      schema definitions. */
  datatype Source =
    | RunApp(kindFor: GVR -> Result<GVK>, lookupResource: GVK -> Option<Schema>, defs: Definitions)
    | Main(kindFor: GVR -> Result<GVK>, lookupResource: GVK -> Option<Schema>, defs: Definitions)

  /** What getPaths gives for one GVR: the process ends, or the set of
      paths comes back. */
  datatype Fetched = Failed(err: Option<Error>) | Found(paths: set<string>)

  /** The GVR a field's TreeData holds: RunApp stores it, main.go's
      TreeData has none. */
  function GvrField(src: Source, gvr: GVR): Option<GVR>
  {
    if src.RunApp? then Some(gvr) else None
  }

  /** The suffix addChildrenFields gives a node with children. */
  function Mark(src: Source): string
  {
    if src.RunApp? then RunAppMark else MainMark
  }

  /** getPaths of `src` for `gvr`, with the process-wide reference set
      holding `visited` (only main.go's visitor uses it; RunApp's visitor
      starts with an empty set of its own). */
  function FetchOf(src: Source, visited: set<string>, gvr: GVR): Fetched
  {
    match src.kindFor(gvr)
    case Err(e) => Failed(Some(e))
    case Ok(gvk) =>
      match src.lookupResource(gvk)
      case None => if src.RunApp? then Found({}) else Failed(None)
      case Some(s) =>
        if src.RunApp? then
          var w := Accept(src.defs, s, ApiDocsPaths.Start(gvr));
          if w.err.Some? then Found({}) else Found(w.pathSchema.Keys)
        else
          var w := Accept(src.defs, s, Walk(ToLower(gvr.resource), map[], None, visited));
          if w.err.Some? then Failed(w.err) else Found(w.pathSchema.Keys)
  }

  /** `fetch` gives getPaths' outcome for every GVR, as `FetchOf` does for
      `src` with the process-wide reference set holding `visited`. */
  ghost predicate Fetches(src: Source, visited: set<string>, fetch: GVR -> Fetched)
  {
    forall g :: Fetching(src, visited, fetch, g)
  }

  /** `fetch` gives getPaths' outcome for `g`. */
  ghost predicate Fetching(src: Source, visited: set<string>, fetch: GVR -> Fetched, g: GVR)
  {
    fetch(g) == FetchOf(src, visited, g)
  }

  /** How one resource ends the loop: getPaths ends the process, its paths
      are empty and the index panics, or the loop goes on. */
  function EndingOf(f: Fetched): Ending
  {
    match f
    case Failed(e) => Fatal(e)
    case Found(paths) => if paths == {} then Panic else Running
  }

  /** The explainers main.go's getPaths registers for `gvr` with paths
      `paths`: each path, then the resource itself. RunApp registers none. */
  function Register(src: Source, explainers: map<string, GVR>, paths: set<string>, gvr: GVR): (r: map<string, GVR>)
    ensures src.RunApp? ==> r == explainers
    ensures src.Main? ==> r.Keys == explainers.Keys + paths + {gvr.resource}
    ensures src.Main? ==> forall x | x in r :: r[x] == if x in paths || x == gvr.resource then gvr else explainers[x]
  {
    if src.RunApp? then explainers
    else (explainers + map x | x in paths :: gvr)[gvr.resource := gvr]
  }

  /** The GVRs of a group version's resources, in their order. */
  function StepsOf(gv: GroupVersion, rs: seq<APIResource>): (r: seq<GVR>)
    ensures |r| == |rs|
    ensures forall i | 0 <= i < |rs| :: r[i] == WithResource(gv, rs[i].name)
  {
    seq(|rs|, i requires 0 <= i < |rs| => WithResource(gv, rs[i].name))
  }

  /** A resource's name, the key resources are sorted by. */
  function Name(r: APIResource): string
  {
    r.name
  }

  /** sort.SliceStable of a group's resources by name. */
  function ByName(rs: seq<APIResource>): (r: seq<APIResource>)
    ensures multiset(r) == multiset(rs) && |r| == |rs|
  {
    var r := SortBy(rs, Name);
    assert |multiset(r)| == |r|;
    r
  }

  /** The GVRs the loop visits for one group: none when its group version
      does not parse, otherwise one per resource in name order. */
  function GroupSteps(g: APIResourceList, parse: string -> Result<GroupVersion>): seq<GVR>
  {
    match parse(g.groupVersion)
    case Err(_) => []
    case Ok(gv) => StepsOf(gv, ByName(g.resources))
  }

  /** The GVRs the loop visits for `groups`, group after group. */
  function AllSteps(groups: seq<APIResourceList>, parse: string -> Result<GroupVersion>): seq<GVR>
  {
    if |groups| == 0 then []
    else AllSteps(groups[..|groups| - 1], parse) + GroupSteps(groups[|groups| - 1], parse)
  }

  /** How the loop over the GVRs `gvrs` ends: at the first one that does
      not let it go on. */
  function FirstEnding(fetch: GVR -> Fetched, gvrs: seq<GVR>): Ending
  {
    if |gvrs| == 0 then Running
    else
      var before := FirstEnding(fetch, gvrs[..|gvrs| - 1]);
      if before != Running then before else EndingOf(fetch(gvrs[|gvrs| - 1]))
  }

  /** The explainers registered over `gvrs`, starting from `explainers`. */
  function Registered(src: Source, fetch: GVR -> Fetched, explainers: map<string, GVR>, gvrs: seq<GVR>): map<string, GVR>
  {
    if |gvrs| == 0 then explainers
    else
      var before := Registered(src, fetch, explainers, gvrs[..|gvrs| - 1]);
      var g := gvrs[|gvrs| - 1];
      match fetch(g)
      case Found(paths) => Register(src, before, paths, g)
      case Failed(_) => before
  }

  /** The groups that get a node: those with resources. */
  function Shown(groups: seq<APIResourceList>): (r: seq<APIResourceList>)
    ensures forall g | g in r :: g in groups && g.resources != []
  {
    if |groups| == 0 then []
    else
      var g := groups[|groups| - 1];
      Shown(groups[..|groups| - 1]) + if g.resources != [] then [g] else []
  }

  /** The paths getPaths found, none when it failed. */
  function Paths(f: Fetched): set<string>
  {
    if f.Found? then f.paths else {}
  }

  /** `v` is the resource node for `r`: labelled "Kind (name)", a Resource
      TreeData holding the first part of the lower-cased name as its path
      and GvrField, and below it the copy of the field trie that spells
      the paths `found` from that first part on, as addChildrenFields
      builds it. By FieldsUI.SpellsUnique there is one such trie. */
  ghost predicate ResourceShown(v: NodeValue, r: APIResource, gvr: GVR, src: Source, found: set<string>)
  {
    var head := Head(ToLower(gvr.resource));
    && v.text == r.kind + " (" + r.name + ")"
    && v.kind == Some(ResourceType) && v.reference.Data?
    && v.reference.data.gvr == GvrField(src, gvr) && v.reference.data.path == head
    && exists f: Fields ::
         && f.name == head && f.path == head && Spells(f, [head], found)
         && v.expanded == (if f.kids != map[] then !NewNodeExpanded else NewNodeExpanded)
         && v.color == (if f.kids != map[] then Green else PrimaryText)
         && KidsBuilt(v.kids, f, GvrField(src, gvr), Mark(src))
  }

  /** `vs` are the resource nodes of group `g`: none when its group version
      does not parse, otherwise one per resource in name order. */
  ghost predicate ResourcesShown(vs: seq<NodeValue>, g: APIResourceList, parse: string -> Result<GroupVersion>, src: Source,
                                 fetch: GVR -> Fetched)
  {
    match parse(g.groupVersion)
    case Err(_) => vs == []
    case Ok(gv) =>
      var rs := ByName(g.resources);
      && |vs| == |rs|
      && forall i | 0 <= i < |vs| :: ResourceShown(vs[i], rs[i], WithResource(gv, rs[i].name), src, Paths(fetch(WithResource(gv, rs[i].name))))
  }

  /** `v` is the node of group `g`: its group version, green, a Group
      TreeData and, as tview creates it, expanded. */
  ghost predicate GroupShown(v: NodeValue, g: APIResourceList, parse: string -> Result<GroupVersion>, src: Source,
                             fetch: GVR -> Fetched)
  {
    && v.text == g.groupVersion && v.color == Green && v.expanded == NewNodeExpanded
    && v.kind == Some(GroupType) && v.reference.Data?
    && v.reference.data.path == "" && v.reference.data.gvr == None
    && ResourcesShown(v.kids, g, parse, src, fetch)
  }

  /** `vs` are the nodes of the groups with resources, in order. */
  ghost predicate GroupsShown(vs: seq<NodeValue>, groups: seq<APIResourceList>, parse: string -> Result<GroupVersion>, src: Source,
                              fetch: GVR -> Fetched)
  {
    var shown := Shown(groups);
    && |vs| == |shown|
    && forall i | 0 <= i < |vs| :: GroupShown(vs[i], shown[i], parse, src, fetch)
  }

  /** RunApp's getPaths ends the process only when KindFor fails. A missing
      schema or a failed walk leaves the resource without paths, so the
      loop panics on it instead of reporting the cause. */
  lemma RunAppFailsOnlyOnKindFor(src: Source, visited: set<string>, gvr: GVR)
    requires src.RunApp?
    ensures FetchOf(src, visited, gvr).Failed? <==> src.kindFor(gvr).Err?
    ensures src.kindFor(gvr).Ok? && src.lookupResource(src.kindFor(gvr).value).None? ==>
      EndingOf(FetchOf(src, visited, gvr)) == Panic
  {
  }

  /** main.go's getPaths ends the process on each of the three failures:
      with KindFor's error, with a nil error for a missing schema, with the
      walk's error. */
  lemma MainFailures(src: Source, visited: set<string>, gvr: GVR)
    requires src.Main?
    ensures src.kindFor(gvr).Err? ==> EndingOf(FetchOf(src, visited, gvr)) == Fatal(Some(src.kindFor(gvr).error))
    ensures src.kindFor(gvr).Ok? && src.lookupResource(src.kindFor(gvr).value).None? ==>
      EndingOf(FetchOf(src, visited, gvr)) == Fatal(None)
    ensures src.kindFor(gvr).Ok? && src.lookupResource(src.kindFor(gvr).value).Some? ==>
      var w := Accept(src.defs, src.lookupResource(src.kindFor(gvr).value).value, Walk(ToLower(gvr.resource), map[], None, visited));
      w.err.Some? ==> EndingOf(FetchOf(src, visited, gvr)) == Fatal(w.err)
  {
  }

  /** Every path getPaths finds lies below the lower-cased resource name. */
  lemma FoundPrefixed(src: Source, visited: set<string>, gvr: GVR)
    ensures FetchOf(src, visited, gvr).Found? ==>
      forall x | x in FetchOf(src, visited, gvr).paths :: IsPrefix(ToLower(gvr.resource) + ".", x)
  {
    if src.kindFor(gvr).Ok? && src.lookupResource(src.kindFor(gvr).value).Some? {
      var s := src.lookupResource(src.kindFor(gvr).value).value;
      var w := if src.RunApp? then ApiDocsPaths.Start(gvr) else Walk(ToLower(gvr.resource), map[], None, visited);
      forall x | x in Accept(src.defs, s, w).pathSchema ensures IsPrefix(ToLower(gvr.resource) + ".", x) {
        AcceptKeys(src.defs, s, w, x);
        ReachesPrefixed(src.defs, s, ToLower(gvr.resource), w.visited, x);
      }
    }
  }

  /** Once the loop has stopped, later GVRs do not change how it ends. */
  lemma {:induction false} FirstEndingKept(fetch: GVR -> Fetched, a: seq<GVR>, b: seq<GVR>)
    requires FirstEnding(fetch, a) != Running
    ensures FirstEnding(fetch, a + b) == FirstEnding(fetch, a)
    decreases |b|
  {
    if |b| > 0 {
      assert (a + b)[..|a + b| - 1] == a + b[..|b| - 1];
      FirstEndingKept(fetch, a, b[..|b| - 1]);
    } else {
      assert a + b == a;
    }
  }

  /** While the loop goes on, how it ends is how the rest ends. */
  lemma {:induction false} FirstEndingAppend(fetch: GVR -> Fetched, a: seq<GVR>, b: seq<GVR>)
    requires FirstEnding(fetch, a) == Running
    ensures FirstEnding(fetch, a + b) == FirstEnding(fetch, b)
    decreases |b|
  {
    if |b| > 0 {
      assert (a + b)[..|a + b| - 1] == a + b[..|b| - 1];
      FirstEndingAppend(fetch, a, b[..|b| - 1]);
    } else {
      assert a + b == a;
    }
  }

  /** Registering over `a` and then over `b` is registering over `a + b`. */
  lemma {:induction false} RegisteredAppend(src: Source, fetch: GVR -> Fetched, e: map<string, GVR>, a: seq<GVR>, b: seq<GVR>)
    ensures Registered(src, fetch, Registered(src, fetch, e, a), b) == Registered(src, fetch, e, a + b)
    decreases |b|
  {
    if |b| > 0 {
      assert (a + b)[..|a + b| - 1] == a + b[..|b| - 1];
      RegisteredAppend(src, fetch, e, a, b[..|b| - 1]);
    } else {
      assert a + b == a;
    }
  }

  /** The loop goes on to the end exactly when every GVR lets it; it stops
      at the first one that does not, with that one's ending. */
  lemma {:induction false} FirstEndingIsFirst(fetch: GVR -> Fetched, gvrs: seq<GVR>)
    ensures FirstEnding(fetch, gvrs) == Running <==>
      forall i | 0 <= i < |gvrs| :: EndingOf(fetch(gvrs[i])) == Running
    ensures FirstEnding(fetch, gvrs) != Running ==>
      exists i | 0 <= i < |gvrs| :: EndingOf(fetch(gvrs[i])) == FirstEnding(fetch, gvrs)
        && forall j | 0 <= j < i :: EndingOf(fetch(gvrs[j])) == Running
    decreases |gvrs|
  {
    if |gvrs| > 0 {
      var init := gvrs[..|gvrs| - 1];
      FirstEndingIsFirst(fetch, init);
      assert forall i | 0 <= i < |init| :: init[i] == gvrs[i];
    }
  }

  /** After a main.go loop that went to the end, every resource it visited
      and every path found for it have an explainer. */
  lemma RegisteredCovers(src: Source, fetch: GVR -> Fetched, e: map<string, GVR>, gvrs: seq<GVR>, i: nat)
    requires src.Main? && i < |gvrs| && FirstEnding(fetch, gvrs) == Running
    ensures fetch(gvrs[i]).Found?
    ensures gvrs[i].resource in Registered(src, fetch, e, gvrs)
    ensures forall x | x in fetch(gvrs[i]).paths :: x in Registered(src, fetch, e, gvrs)
  {
    FirstEndingIsFirst(fetch, gvrs);
    assert forall j | 0 <= j < |gvrs| :: fetch(gvrs[j]).Found?;
    RegisteredKeys(src, fetch, e, gvrs, i);
  }

  /** When every GVR was found, each one's resource and paths are
      registered. */
  lemma {:induction false} RegisteredKeys(src: Source, fetch: GVR -> Fetched, e: map<string, GVR>, gvrs: seq<GVR>, i: nat)
    requires src.Main? && i < |gvrs|
    requires forall j | 0 <= j < |gvrs| :: fetch(gvrs[j]).Found?
    ensures gvrs[i].resource in Registered(src, fetch, e, gvrs)
    ensures forall x | x in fetch(gvrs[i]).paths :: x in Registered(src, fetch, e, gvrs)
    decreases |gvrs|
  {
    var n := |gvrs| - 1;
    var init := gvrs[..n];
    RegisteredLast(src, fetch, e, gvrs);
    if i < n {
      assert forall j | 0 <= j < |init| :: fetch(init[j]).Found? by {
        forall j | 0 <= j < |init| ensures fetch(init[j]).Found? {
          assert init[j] == gvrs[j];
        }
      }
      RegisteredKeys(src, fetch, e, init, i);
      assert init[i] == gvrs[i];
    }
  }

  /** The last GVR found registers its paths and resource over the
      earlier ones, in main.go. */
  lemma RegisteredLast(src: Source, fetch: GVR -> Fetched, e: map<string, GVR>, gvrs: seq<GVR>)
    requires src.Main? && |gvrs| > 0 && fetch(gvrs[|gvrs| - 1]).Found?
    ensures var last := gvrs[|gvrs| - 1];
      forall x :: x in Registered(src, fetch, e, gvrs) <==>
        x in Registered(src, fetch, e, gvrs[..|gvrs| - 1]) || x in fetch(last).paths || x == last.resource
  {
  }

  /** A map that agrees with Register key by key is Register's. */
  lemma RegisterPointwise(src: Source, e0: map<string, GVR>, e: map<string, GVR>, paths: set<string>, gvr: GVR)
    requires src.Main?
    requires forall x :: x in e <==> x in e0 || x in paths || x == gvr.resource
    requires forall x | x in e :: e[x] == if x in paths || x == gvr.resource then gvr else e0[x]
    ensures e == Register(src, e0, paths, gvr)
  {
    var r := Register(src, e0, paths, gvr);
    assert e.Keys == r.Keys;
  }

  /** getPaths of main.go: a visitor sharing the process-wide reference
      set walks the resource's schema from the lower-cased resource name.
      A KindFor error, a missing schema (with the nil KindFor error) and a
      walk error each end the process. Otherwise every path walked, in
      ascending order, gets an explainer for `gvr`, then the resource name
      does, and the paths are returned. */
  method MainGetPaths(kindFor: GVR -> Result<GVK>, lookupResource: GVK -> Option<Schema>, defs: Definitions,
                      refs: AppVisitor.ReferenceSet, gvr: GVR, explainers0: map<string, GVR>)
    returns (ending: Ending, paths: seq<string>, explainers: map<string, GVR>)
    modifies refs
    ensures refs.names == old(refs.names)
    ensures var f := FetchOf(Main(kindFor, lookupResource, defs), old(refs.names), gvr);
      && ending == (if f.Failed? then Fatal(f.err) else Running)
      && (f.Found? ==> (forall x :: x in paths <==> x in f.paths)
                       && explainers == Register(Main(kindFor, lookupResource, defs), explainers0, f.paths, gvr))
  {
    var lower := ToLower(gvr.resource);
    var visitor := new AppVisitor.SchemaVisitor(AppVisitor.Path(lower), refs);
    var gvk := kindFor(gvr);
    if gvk.Err? {
      return Fatal(Some(gvk.error)), [], explainers0;
    }
    var s := lookupResource(gvk.value);
    if s.None? {
      return Fatal(None), [], explainers0;
    }
    visitor.Accept(defs, s.value);
    if visitor.err.Some? {
      return Fatal(visitor.err), [], explainers0;
    }
    var walked := visitor.ListPaths();
    ending := Running;
    paths, explainers := RegisterWalked(walked, gvr, explainers0);
    ghost var keys := visitor.State().pathSchema.Keys;
    forall x ensures x in paths <==> x in keys {
      assert x in keys <==> AppVisitor.Path(x) in visitor.pathSchema;
      if x in paths {
        var j :| 0 <= j < |paths| && paths[j] == x;
        assert walked[j] == AppVisitor.Path(x);
      }
      if AppVisitor.Path(x) in walked {
        var j :| 0 <= j < |walked| && walked[j] == AppVisitor.Path(x);
        assert paths[j] == x;
      }
    }
    RegisterPointwise(Main(kindFor, lookupResource, defs), explainers0, explainers, keys, gvr);
  }

  /** The end of main.go's getPaths: each walked path in order gets an
      explainer for `gvr` and is returned, then the resource name gets
      one. */
  method RegisterWalked(walked: seq<AppVisitor.Path>, gvr: GVR, explainers0: map<string, GVR>)
    returns (paths: seq<string>, explainers: map<string, GVR>)
    ensures |paths| == |walked| && forall j | 0 <= j < |walked| :: paths[j] == walked[j].original
    ensures forall x :: x in explainers <==> x in explainers0 || x in paths || x == gvr.resource
    ensures forall x | x in explainers :: explainers[x] == if x in paths || x == gvr.resource then gvr else explainers0[x]
  {
    explainers, paths := explainers0, [];
    for i := 0 to |walked|
      invariant |paths| == i && forall j | 0 <= j < i :: paths[j] == walked[j].original
      invariant forall x :: x in explainers <==> x in explainers0 || x in paths
      invariant forall x | x in explainers :: explainers[x] == if x in paths then gvr else explainers0[x]
    {
      explainers := explainers[walked[i].original := gvr];
      paths := paths + [walked[i].original];
    }
    explainers := explainers[gvr.resource := gvr];
  }

  /** The loop's getPaths call for `src`: RunApp's getPaths, where only an
      error it returns ends the process (log.Fatal(err)), or main.go's. */
  method FetchPaths(src: Source, refs: AppVisitor.ReferenceSet, gvr: GVR, explainers0: map<string, GVR>, ghost fetch: GVR -> Fetched)
    returns (ending: Ending, paths: seq<string>, explainers: map<string, GVR>)
    requires Fetches(src, refs.names, fetch)
    modifies refs
    ensures refs.names == old(refs.names)
    ensures ending == (if fetch(gvr).Failed? then Fatal(fetch(gvr).err) else Running)
    ensures fetch(gvr).Found? ==>
      && (set x | x in paths) == fetch(gvr).paths
      && (forall x | x in paths :: IsPrefix(ToLower(gvr.resource) + ".", x))
      && explainers == Register(src, explainers0, fetch(gvr).paths, gvr)
  {
    assert Fetching(src, refs.names, fetch, gvr);
    FoundPrefixed(src, refs.names, gvr);
    if src.Main? {
      ending, paths, explainers := MainGetPaths(src.kindFor, src.lookupResource, src.defs, refs, gvr, explainers0);
      return;
    }
    var err;
    paths, err := ApiDocsPaths.GetPaths(src.kindFor, src.lookupResource, src.defs, gvr);
    explainers := explainers0;
    if err.Some? {
      return Fatal(err), [], explainers;
    }
    ending := Running;
    if src.kindFor(gvr).Ok? && src.lookupResource(src.kindFor(gvr).value).Some? {
      ApiDocsPaths.WalkFromStart(src.defs, src.lookupResource(src.kindFor(gvr).value).value, gvr);
    }
  }

  /** One round of the inner loop for a resource whose group version
      parsed to `gv`: getPaths, then the resource node built from the
      paths, appended to the group node. */
  method AddResource(groupNode: TreeNode, r: APIResource, gv: GroupVersion, src: Source,
                     refs: AppVisitor.ReferenceSet, explainers0: map<string, GVR>, ghost fetch: GVR -> Fetched,
                     ghost outside: set<TreeNode>)
    returns (ending: Ending, explainers: map<string, GVR>, ghost v: NodeValue)
    requires Fetches(src, refs.names, fetch)
    requires groupNode.Valid() && groupNode.repr !! outside
    modifies groupNode`children, groupNode`repr, refs
    ensures refs.names == old(refs.names)
    ensures ending == EndingOf(fetch(WithResource(gv, r.name)))
    ensures ending == Running ==>
      && explainers == Register(src, explainers0, fetch(WithResource(gv, r.name)).paths, WithResource(gv, r.name))
      && groupNode.Valid() && groupNode.repr !! outside
      && groupNode.Snap().kids == old(groupNode.Snap().kids) + [v]
      && ResourceShown(v, r, WithResource(gv, r.name), src, Paths(fetch(WithResource(gv, r.name))))
  {
    v := NodeValue("", false, PrimaryText, NoReference, None, []);
    var gvr := WithResource(gv, r.name);
    var paths;
    ending, paths, explainers := FetchPaths(src, refs, gvr, explainers0, fetch);
    if ending != Running {
      return;
    }
    var node;
    node, v := ResourceOf(r, paths, gvr, src);
    if node == null {
      assert fetch(gvr).paths == {};
      return Panic, explainers, v;
    }
    assert fetch(gvr).paths != {} by {
      assert paths[0] in fetch(gvr).paths;
    }
    SnapKept(groupNode);
    Attach(groupNode, node);
  }

  /** The resource node for `r` built from its paths, all below the
      lower-cased resource name, with the field trie of exactly those
      paths below it; null when there are none. */
  method ResourceOf(r: APIResource, paths: seq<string>, gvr: GVR, src: Source) returns (node: TreeNode?, ghost v: NodeValue)
    requires forall x | x in paths :: IsPrefix(ToLower(gvr.resource) + ".", x)
    ensures node == null <==> paths == []
    ensures node != null ==> node.Valid() && fresh(node.repr) && node.Snap() == v && ResourceShown(v, r, gvr, src, set x | x in paths)
  {
    v := NodeValue("", false, PrimaryText, NoReference, None, []);
    ghost var fields;
    node, fields := ResourceNode(r, paths, GvrField(src, gvr), Mark(src), ToLower(gvr.resource));
    if node != null {
      v := node.Snap();
    }
  }

  /** The loop stops at the `i`th GVR when it is the first that does not
      let it go on. */
  lemma StopsAt(fetch: GVR -> Fetched, steps: seq<GVR>, i: nat)
    requires i < |steps| && FirstEnding(fetch, steps[..i]) == Running && EndingOf(fetch(steps[i])) != Running
    ensures FirstEnding(fetch, steps) == EndingOf(fetch(steps[i]))
  {
    TakeTake(steps, i);
    FirstEndingKept(fetch, steps[..i + 1], steps[i + 1..]);
    assert steps[..i + 1] + steps[i + 1..] == steps;
  }

  /** The loop goes past the `i`th GVR, registering its paths. */
  lemma GoesOn(src: Source, fetch: GVR -> Fetched, e: map<string, GVR>, steps: seq<GVR>, i: nat)
    requires i < |steps| && FirstEnding(fetch, steps[..i]) == Running && EndingOf(fetch(steps[i])) == Running
    ensures FirstEnding(fetch, steps[..i + 1]) == Running
    ensures Registered(src, fetch, e, steps[..i + 1]) ==
      Register(src, Registered(src, fetch, e, steps[..i]), fetch(steps[i]).paths, steps[i])
  {
    TakeTake(steps, i);
  }

  /** `vs` are the nodes of the first `|vs|` resources of `rs`, whose GVRs
      are `steps`. */
  ghost predicate ResourcesUpTo(vs: seq<NodeValue>, rs: seq<APIResource>, steps: seq<GVR>, src: Source, fetch: GVR -> Fetched)
  {
    && |vs| <= |rs| && |vs| <= |steps|
    && forall j | 0 <= j < |vs| :: ResourceShown(vs[j], rs[j], steps[j], src, Paths(fetch(steps[j])))
  }

  /** One more resource node. */
  lemma ResourcesStep(vs: seq<NodeValue>, v: NodeValue, rs: seq<APIResource>, steps: seq<GVR>, src: Source, fetch: GVR -> Fetched)
    requires ResourcesUpTo(vs, rs, steps, src, fetch) && |vs| < |rs| && |vs| < |steps|
    requires ResourceShown(v, rs[|vs|], steps[|vs|], src, Paths(fetch(steps[|vs|])))
    ensures ResourcesUpTo(vs + [v], rs, steps, src, fetch)
  {
    var w := vs + [v];
    forall j | 0 <= j < |w| ensures ResourceShown(w[j], rs[j], steps[j], src, Paths(fetch(steps[j]))) {
      if j < |vs| {
        assert w[j] == vs[j];
      }
    }
  }

  /** The loop has gone past the first `i` resources of `rs`, whose GVRs
      are `steps`: `vs` are their nodes and `e` the explainers registered
      for them, starting from `e0`. */
  ghost predicate SoFar(src: Source, fetch: GVR -> Fetched, e0: map<string, GVR>, e: map<string, GVR>,
                        vs: seq<NodeValue>, rs: seq<APIResource>, steps: seq<GVR>, i: nat)
  {
    && i <= |steps| && |vs| == i
    && FirstEnding(fetch, steps[..i]) == Running
    && e == Registered(src, fetch, e0, steps[..i])
    && ResourcesUpTo(vs, rs, steps, src, fetch)
  }

  /** The loop goes past one more resource, which registers its paths
      and gets its node. */
  lemma SoFarStep(src: Source, fetch: GVR -> Fetched, e0: map<string, GVR>, e: map<string, GVR>,
                  vs: seq<NodeValue>, v: NodeValue, rs: seq<APIResource>, steps: seq<GVR>, i: nat)
    requires SoFar(src, fetch, e0, e, vs, rs, steps, i) && i < |rs| && i < |steps|
    requires EndingOf(fetch(steps[i])) == Running
    requires ResourceShown(v, rs[i], steps[i], src, Paths(fetch(steps[i])))
    ensures SoFar(src, fetch, e0, Register(src, e, fetch(steps[i]).paths, steps[i]), vs + [v], rs, steps, i + 1)
  {
    GoesOn(src, fetch, e0, steps, i);
    ResourcesStep(vs, v, rs, steps, src, fetch);
  }

  /** Every resource of a group whose version parsed has its node. */
  lemma GroupResourcesShown(vs: seq<NodeValue>, g: APIResourceList, parse: string -> Result<GroupVersion>, src: Source,
                            fetch: GVR -> Fetched)
    requires parse(g.groupVersion).Ok? && |vs| == |g.resources|
    requires ResourcesUpTo(vs, ByName(g.resources), GroupSteps(g, parse), src, fetch)
    ensures ResourcesShown(vs, g, parse, src, fetch)
  {
  }

  /** The inner loop over a group's resources in name order: each one
      parses the group version, skips the resource when that fails, and
      otherwise adds the resource's node; the first resource that ends the
      process ends the loop. */
  method AddResources(groupNode: TreeNode, g: APIResourceList, rs: seq<APIResource>, src: Source,
                      parse: string -> Result<GroupVersion>, refs: AppVisitor.ReferenceSet, explainers0: map<string, GVR>,
                      ghost fetch: GVR -> Fetched, ghost outside: set<TreeNode>)
    returns (ending: Ending, explainers: map<string, GVR>, ghost vs: seq<NodeValue>)
    requires rs == ByName(g.resources)
    requires Fetches(src, refs.names, fetch)
    requires groupNode.Valid() && groupNode.repr !! outside
    modifies groupNode`children, groupNode`repr, refs
    ensures refs.names == old(refs.names)
    ensures ending == FirstEnding(fetch, GroupSteps(g, parse))
    ensures ending == Running ==>
      && explainers == Registered(src, fetch, explainers0, GroupSteps(g, parse))
      && groupNode.Valid() && groupNode.repr !! outside
      && groupNode.Snap().kids == old(groupNode.Snap().kids) + vs
      && ResourcesShown(vs, g, parse, src, fetch)
  {
    ghost var visited := refs.names;
    ghost var steps := GroupSteps(g, parse);
    ghost var before := groupNode.Snap().kids;
    explainers, vs := explainers0, [];
    for i := 0 to |rs|
      invariant refs.names == visited
      invariant groupNode.Valid() && groupNode.repr !! outside
      invariant groupNode.Snap().kids == before + vs
      invariant parse(g.groupVersion).Err? ==> vs == [] && explainers == explainers0
      invariant parse(g.groupVersion).Ok? ==>
        && steps == StepsOf(parse(g.groupVersion).value, rs)
        && SoFar(src, fetch, explainers0, explainers, vs, rs, steps, i)
    {
      var gv := parse(g.groupVersion);
      if gv.Err? {
        continue;
      }
      ghost var v;
      ghost var e := explainers;
      ending, explainers, v := AddResource(groupNode, rs[i], gv.value, src, refs, explainers, fetch, outside);
      if ending != Running {
        StopsAt(fetch, steps, i);
        return;
      }
      SoFarStep(src, fetch, explainers0, e, vs, v, rs, steps, i);
      AppendOne(before, vs, v);
      vs := vs + [v];
    }
    ending := Running;
    if parse(g.groupVersion).Ok? {
      TakeAll(steps);
      GroupResourcesShown(vs, g, parse, src, fetch);
    }
  }

  /** The node of a group with resources: its group version, green, with
      a Group TreeData, holding its resources' nodes. */
  method GroupOf(g: APIResourceList, rs: seq<APIResource>, src: Source, parse: string -> Result<GroupVersion>,
                 refs: AppVisitor.ReferenceSet, explainers0: map<string, GVR>, ghost fetch: GVR -> Fetched,
                 ghost outside: set<TreeNode>)
    returns (ending: Ending, explainers: map<string, GVR>, groupNode: TreeNode)
    requires rs == ByName(g.resources)
    requires Fetches(src, refs.names, fetch)
    modifies refs
    ensures refs.names == old(refs.names)
    ensures ending == FirstEnding(fetch, GroupSteps(g, parse))
    ensures ending == Running ==>
      && explainers == Registered(src, fetch, explainers0, GroupSteps(g, parse))
      && groupNode.Valid() && groupNode.repr !! outside
      && GroupShown(groupNode.Snap(), g, parse, src, fetch)
  {
    ghost var v0;
    groupNode, v0 := NewGroupNode(g);
    label built:
    ghost var vs;
    ending, explainers, vs := AddResources(groupNode, g, rs, src, parse, refs, explainers0, fetch, outside);
    if ending == Running {
      OwnKept@built(groupNode);
      assert groupNode.Snap().kids == vs;
      GroupNodeShown(groupNode.Snap(), v0, vs, g, parse, src, fetch);
    }
  }

  /** A new green node for a group, with a Group TreeData. */
  method NewGroupNode(g: APIResourceList) returns (node: TreeNode, ghost v: NodeValue)
    ensures fresh(node) && node.Valid() && node.repr == {node} && node.Snap() == v
    ensures v.text == g.groupVersion && v.color == Green && v.expanded == NewNodeExpanded && v.kids == []
    ensures v.kind == Some(GroupType) && v.reference.Data? && v.reference.data.path == "" && v.reference.data.gvr == None
  {
    node := new TreeNode(g.groupVersion);
    node.color := Green;
    var data := new TreeData(GroupType, "", None);
    node.reference := Data(data);
    v := node.Snap();
  }

  /** A green group node over the given resource nodes. */
  lemma GroupNodeShown(v: NodeValue, v0: NodeValue, vs: seq<NodeValue>, g: APIResourceList,
                       parse: string -> Result<GroupVersion>, src: Source, fetch: GVR -> Fetched)
    requires v0.text == g.groupVersion && v0.color == Green && v0.expanded == NewNodeExpanded
    requires v0.kind == Some(GroupType) && v0.reference.Data? && v0.reference.data.path == "" && v0.reference.data.gvr == None
    requires v == v0.(kids := vs)
    requires ResourcesShown(vs, g, parse, src, fetch)
    ensures GroupShown(v, g, parse, src, fetch)
  {
  }

  /** One round of the outer loop: the group's resources are sorted by
      name; a group without resources is passed over, and one that has
      some gets its node appended to the root, even when none of them got
      a node. */
  method AddGroup(root: TreeNode, g: APIResourceList, src: Source, parse: string -> Result<GroupVersion>,
                  refs: AppVisitor.ReferenceSet, explainers0: map<string, GVR>, ghost fetch: GVR -> Fetched)
    returns (ending: Ending, explainers: map<string, GVR>, ghost added: seq<NodeValue>)
    requires Fetches(src, refs.names, fetch)
    requires root.Valid()
    modifies root`children, root`repr, refs
    ensures refs.names == old(refs.names)
    ensures ending == FirstEnding(fetch, GroupSteps(g, parse))
    ensures ending == Running ==>
      && explainers == Registered(src, fetch, explainers0, GroupSteps(g, parse))
      && root.Valid()
      && root.Snap().kids == old(root.Snap().kids) + added
      && (g.resources == [] ==> added == [])
      && (g.resources != [] ==> |added| == 1 && GroupShown(added[0], g, parse, src, fetch))
  {
    var rs := ByName(g.resources);
    if |rs| == 0 {
      assert GroupSteps(g, parse) == [];
      return Running, explainers0, [];
    }
    var groupNode;
    ending, explainers, groupNode := GroupOf(g, rs, src, parse, refs, explainers0, fetch, root.repr);
    if ending != Running {
      return ending, explainers, [];
    }
    added := [groupNode.Snap()];
    SnapKept(root);
    Attach(root, groupNode);
  }

  /** The GVRs of the first `i + 1` groups are those of the first `i`
      followed by the `i`th group's. */
  lemma AllStepsSnoc(groups: seq<APIResourceList>, parse: string -> Result<GroupVersion>, i: nat)
    requires i < |groups|
    ensures AllSteps(groups[..i + 1], parse) == AllSteps(groups[..i], parse) + GroupSteps(groups[i], parse)
    ensures Shown(groups[..i + 1]) == Shown(groups[..i]) + if groups[i].resources != [] then [groups[i]] else []
  {
    TakeTake(groups, i);
  }

  /** Once the loop has stopped within the first `i + 1` groups, the
      groups after them do not change how it ends. */
  lemma StoppedStays(fetch: GVR -> Fetched, groups: seq<APIResourceList>,
                     parse: string -> Result<GroupVersion>, i: nat)
    requires i < |groups| && FirstEnding(fetch, AllSteps(groups[..i + 1], parse)) != Running
    ensures FirstEnding(fetch, AllSteps(groups, parse)) == FirstEnding(fetch, AllSteps(groups[..i + 1], parse))
  {
    SplitAt(groups, i + 1);
    StoppedAppend(fetch, groups[..i + 1], groups[i + 1..], parse);
  }

  /** Once the loop has stopped in `front`, the groups after it do not
      change how it ends. */
  lemma {:induction false} StoppedAppend(fetch: GVR -> Fetched, front: seq<APIResourceList>, back: seq<APIResourceList>,
                                         parse: string -> Result<GroupVersion>)
    requires FirstEnding(fetch, AllSteps(front, parse)) != Running
    ensures FirstEnding(fetch, AllSteps(front + back, parse)) == FirstEnding(fetch, AllSteps(front, parse))
    decreases |back|
  {
    if back == [] {
      assert front + back == front;
    } else {
      var n := |back| - 1;
      StoppedAppend(fetch, front, back[..n], parse);
      AppendLast(front, back);
      StoppedOneMore(fetch, front + back[..n], back[n], parse);
    }
  }

  /** All of a sequence's elements are the sequence. */
  lemma TakeAll<T>(s: seq<T>)
    ensures s[..|s|] == s
  {
  }

  /** The first `i` of the first `i + 1` elements are the first `i`. */
  lemma TakeTake<T>(s: seq<T>, i: nat)
    requires i < |s|
    ensures s[..i + 1][..i] == s[..i]
  {
  }

  /** A sequence is its first `k` elements followed by the rest. */
  lemma SplitAt<T>(s: seq<T>, k: nat)
    requires k <= |s|
    ensures s == s[..k] + s[k..]
  {
  }

  /** Appending a non-empty sequence is appending all but its last
      element, then that one. */
  lemma AppendLast<T>(a: seq<T>, b: seq<T>)
    requires b != []
    ensures a + b == (a + b[..|b| - 1]) + [b[|b| - 1]]
  {
    assert b == b[..|b| - 1] + [b[|b| - 1]];
  }

  /** Once the loop has stopped, one more group does not change how it
      ends. */
  lemma StoppedOneMore(fetch: GVR -> Fetched, front: seq<APIResourceList>, g: APIResourceList,
                       parse: string -> Result<GroupVersion>)
    requires FirstEnding(fetch, AllSteps(front, parse)) != Running
    ensures FirstEnding(fetch, AllSteps(front + [g], parse)) == FirstEnding(fetch, AllSteps(front, parse))
  {
    assert (front + [g])[..|front|] == front;
    FirstEndingKept(fetch, AllSteps(front, parse), GroupSteps(g, parse));
  }

  /** The GVRs of non-empty groups end with the last group's. */
  lemma AllStepsLast(groups: seq<APIResourceList>, parse: string -> Result<GroupVersion>)
    requires |groups| > 0
    ensures AllSteps(groups, parse) == AllSteps(groups[..|groups| - 1], parse) + GroupSteps(groups[|groups| - 1], parse)
  {
  }

  /** The outer loop stops in the `i`th group when the loop over that
      group's GVRs does. */
  lemma GroupStopsAt(fetch: GVR -> Fetched, groups: seq<APIResourceList>, parse: string -> Result<GroupVersion>, i: nat)
    requires i < |groups| && FirstEnding(fetch, AllSteps(groups[..i], parse)) == Running
    requires FirstEnding(fetch, GroupSteps(groups[i], parse)) != Running
    ensures FirstEnding(fetch, AllSteps(groups, parse)) == FirstEnding(fetch, GroupSteps(groups[i], parse))
  {
    AllStepsSnoc(groups, parse, i);
    FirstEndingAppend(fetch, AllSteps(groups[..i], parse), GroupSteps(groups[i], parse));
    StoppedStays(fetch, groups, parse, i);
  }

  /** The outer loop goes past the `i`th group, with the explainers that
      group registered. */
  lemma GroupGoesOn(src: Source, fetch: GVR -> Fetched, groups: seq<APIResourceList>, parse: string -> Result<GroupVersion>, i: nat)
    requires i < |groups| && FirstEnding(fetch, AllSteps(groups[..i], parse)) == Running
    requires FirstEnding(fetch, GroupSteps(groups[i], parse)) == Running
    ensures FirstEnding(fetch, AllSteps(groups[..i + 1], parse)) == Running
    ensures Registered(src, fetch, Registered(src, fetch, map[], AllSteps(groups[..i], parse)), GroupSteps(groups[i], parse))
      == Registered(src, fetch, map[], AllSteps(groups[..i + 1], parse))
  {
    AllStepsSnoc(groups, parse, i);
    FirstEndingAppend(fetch, AllSteps(groups[..i], parse), GroupSteps(groups[i], parse));
    RegisteredAppend(src, fetch, map[], AllSteps(groups[..i], parse), GroupSteps(groups[i], parse));
  }

  /** One more group's node, or none for a group without resources. */
  lemma GroupsShownStep(added: seq<NodeValue>, a: seq<NodeValue>, groups: seq<APIResourceList>,
                        parse: string -> Result<GroupVersion>, src: Source, fetch: GVR -> Fetched, i: nat)
    requires i < |groups| && GroupsShown(added, groups[..i], parse, src, fetch)
    requires groups[i].resources == [] ==> a == []
    requires groups[i].resources != [] ==> |a| == 1 && GroupShown(a[0], groups[i], parse, src, fetch)
    ensures GroupsShown(added + a, groups[..i + 1], parse, src, fetch)
  {
    AllStepsSnoc(groups, parse, i);
    var shown := Shown(groups[..i + 1]);
    var vs := added + a;
    forall j | 0 <= j < |vs| ensures GroupShown(vs[j], shown[j], parse, src, fetch) {
      if j < |added| {
        assert vs[j] == added[j] && shown[j] == Shown(groups[..i])[j];
      }
    }
  }

  /** Appending in two steps is appending once. */
  lemma AppendTwo(before: seq<NodeValue>, added: seq<NodeValue>, a: seq<NodeValue>)
    ensures before + (added + a) == (before + added) + a
  {
  }

  /** The outer loop over the sorted groups: group after group until one
      ends the process. */
  method AddGroups(root: TreeNode, groups: seq<APIResourceList>, src: Source, parse: string -> Result<GroupVersion>,
                   refs: AppVisitor.ReferenceSet, ghost fetch: GVR -> Fetched)
    returns (ending: Ending, explainers: map<string, GVR>, ghost added: seq<NodeValue>)
    requires Fetches(src, refs.names, fetch)
    requires root.Valid()
    modifies root`children, root`repr, refs
    ensures refs.names == old(refs.names)
    ensures ending == FirstEnding(fetch, AllSteps(groups, parse))
    ensures ending == Running ==>
      && explainers == Registered(src, fetch, map[], AllSteps(groups, parse))
      && root.Valid() && root.Snap().kids == old(root.Snap().kids) + added
      && GroupsShown(added, groups, parse, src, fetch)
  {
    ghost var visited := refs.names;
    ghost var before := root.Snap().kids;
    explainers, added := map[], [];
    for i := 0 to |groups|
      invariant refs.names == visited
      invariant root.Valid() && root.Snap().kids == before + added
      invariant FirstEnding(fetch, AllSteps(groups[..i], parse)) == Running
      invariant explainers == Registered(src, fetch, map[], AllSteps(groups[..i], parse))
      invariant GroupsShown(added, groups[..i], parse, src, fetch)
    {
      ghost var a;
      ending, explainers, a := AddGroup(root, groups[i], src, parse, refs, explainers, fetch);
      if ending != Running {
        GroupStopsAt(fetch, groups, parse, i);
        return;
      }
      GroupGoesOn(src, fetch, groups, parse, i);
      GroupsShownStep(added, a, groups, parse, src, fetch, i);
      AppendTwo(before, added, a);
      added := added + a;
    }
    ending := Running;
    TakeAll(groups);
  }

  /** The catalog of RunApp and of main: the served resource lists, or the
      process ends when discovery fails; then the yellow "API Resources"
      root with a Root TreeData, the groups in customSortGroups order with
      the seven-entry priority list, and the loop, starting with no
      explainers. `fetch` is getPaths' outcome for every GVR over the
      reference set as it was. */
  method BuildCatalog(src: Source, served: Result<seq<APIResourceList>>, parse: string -> Result<GroupVersion>,
                      refs: AppVisitor.ReferenceSet)
    returns (root: TreeNode?, ending: Ending, explainers: map<string, GVR>, ghost fetch: GVR -> Fetched)
    modifies refs
    ensures refs.names == old(refs.names)
    ensures Fetches(src, old(refs.names), fetch)
    ensures served.Err? ==> root == null && ending == Fatal(Some(served.error))
    ensures served.Ok? ==>
      var sorted := CustomSortGroups(MainTopLevels, served.value);
      && root != null && fresh(root)
      && ending == FirstEnding(fetch, AllSteps(sorted, parse))
      && (ending == Running ==>
            && explainers == Registered(src, fetch, map[], AllSteps(sorted, parse))
            && root.Valid()
            && root.text == "API Resources" && root.color == Yellow && root.expanded == NewNodeExpanded
            && KindOf(root.reference) == Some(RootType)
            && GroupsShown(root.Snap().kids, sorted, parse, src, fetch))
  {
    fetch := FetchesOf(src, refs.names);
    explainers := map[];
    if served.Err? {
      return null, Fatal(Some(served.error)), explainers, fetch;
    }
    root := NewRoot();
    var sorted := CustomSortGroups(MainTopLevels, served.value);
    ghost var added;
    ending, explainers, added := AddGroups(root, sorted, src, parse, refs, fetch);
    if ending == Running {
      assert root.Snap().kids == added;
    }
  }

  /** getPaths' outcome for every GVR, over the reference set `visited`. */
  ghost function FetchesOf(src: Source, visited: set<string>): (fetch: GVR -> Fetched)
    ensures Fetches(src, visited, fetch)
  {
    var fetch := g => FetchOf(src, visited, g);
    assert forall g :: Fetching(src, visited, fetch, g);
    fetch
  }

  /** The root: "API Resources", yellow, with a Root TreeData and no
      children yet. */
  method NewRoot() returns (root: TreeNode)
    ensures fresh(root) && root.Valid() && root.repr == {root}
    ensures root.text == "API Resources" && root.color == Yellow && root.expanded == NewNodeExpanded
    ensures KindOf(root.reference) == Some(RootType) && root.Snap().kids == []
  {
    root := new TreeNode("API Resources");
    root.color := Yellow;
    var data := new TreeData(RootType, "", None);
    root.reference := Data(data);
  }
}
