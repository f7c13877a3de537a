/** pkg/app/options.go: `discover` turns the served resource lists into an
    alias map and a sorted list of group-version-resources, and `Run`
    selects the GVRs to show and collects the field paths of each.

    ServerPreferredResources' answer, schema.ParseGroupVersion,
    GroupVersionResource.String, RESTMapper.KindFor and
    Resources.LookupResource are parameters. */
module AppOptions {
  import opened Kube
  import opened GoStrings
  import opened GoSort
  import opened Proto
  import AppVisitor

  /** `groupVersionAPIResource`: a resource with the GVR it was found under. */
  datatype Entry = Entry(gvr: GVR, resource: APIResource)

  /** A list contributes when it has resources and its group version parses. */
  predicate Kept(l: APIResourceList, parse: string -> Result<GroupVersion>)
  {
    |l.resources| > 0 && parse(l.groupVersion).Ok?
  }

  /** One GVR per resource, in order. */
  function ListGVRs(gv: GroupVersion, rs: seq<APIResource>): (r: seq<GVR>)
    ensures |r| == |rs|
    ensures forall i :: 0 <= i < |rs| ==> r[i] == WithResource(gv, rs[i].name)
  {
    if |rs| == 0 then []
    else ListGVRs(gv, rs[..|rs| - 1]) + [WithResource(gv, rs[|rs| - 1].name)]
  }

  /** The GVRs `discover` appends, before sorting. */
  function Collected(lists: seq<APIResourceList>, parse: string -> Result<GroupVersion>): seq<GVR>
  {
    if |lists| == 0 then []
    else
      var l := lists[|lists| - 1];
      Collected(lists[..|lists| - 1], parse)
        + (if Kept(l, parse) then ListGVRs(parse(l.groupVersion).value, l.resources) else [])
  }

  /** The keys under which a resource is registered. */
  function Names(r: APIResource): set<string>
  {
    {r.name, r.kind, r.singularName} + (set s | s in r.shortNames)
  }

  /** Each of `names`, in order, now leads to `e`. */
  function RegisterNames(m: map<string, Entry>, names: seq<string>, e: Entry): map<string, Entry>
  {
    if |names| == 0 then m
    else RegisterNames(m, names[..|names| - 1], e)[names[|names| - 1] := e]
  }

  /** Registering one entry under its name, kind, singular name and short
      names, in that order. */
  function Register(m: map<string, Entry>, e: Entry): map<string, Entry>
  {
    RegisterNames(m[e.resource.name := e][e.resource.kind := e][e.resource.singularName := e], e.resource.shortNames, e)
  }

  lemma {:induction false} RegisterNamesKeys(m: map<string, Entry>, names: seq<string>, e: Entry, k: string)
    ensures k in RegisterNames(m, names, e) <==> k in m || k in names
    ensures k in names ==> RegisterNames(m, names, e)[k] == e
    ensures k !in names && k in m ==> RegisterNames(m, names, e)[k] == m[k]
    decreases |names|
  {
    if |names| > 0 {
      var init := names[..|names| - 1];
      RegisterNamesKeys(m, init, e, k);
      assert names == init + [names[|names| - 1]];
    }
  }

  /** A later resource overwrites: every name of the registered entry leads
      to it, whatever it led to before, and every other key keeps its entry. */
  lemma RegisterKeys(m: map<string, Entry>, e: Entry, k: string)
    ensures k in Register(m, e) <==> k in m || k in Names(e.resource)
    ensures k in Names(e.resource) ==> Register(m, e)[k] == e
    ensures k !in Names(e.resource) && k in m ==> Register(m, e)[k] == m[k]
  {
    var r := e.resource;
    RegisterNamesKeys(m[r.name := e][r.kind := e][r.singularName := e], r.shortNames, e, k);
  }

  /** Options.discover's innermost loop: register one entry. */
  method RegisterEntry(m0: map<string, Entry>, e: Entry) returns (m: map<string, Entry>)
    ensures m == Register(m0, e)
  {
    var resource := e.resource;
    m := m0[resource.name := e];
    m := m[resource.kind := e];
    m := m[resource.singularName := e];
    ghost var base := m;
    for si := 0 to |resource.shortNames|
      invariant m == RegisterNames(base, resource.shortNames[..si], e)
    {
      assert resource.shortNames[..si + 1][..si] == resource.shortNames[..si];
      m := m[resource.shortNames[si] := e];
    }
    assert resource.shortNames[..|resource.shortNames|] == resource.shortNames;
  }

  function ResourcesAliases(m: map<string, Entry>, gv: GroupVersion, rs: seq<APIResource>): map<string, Entry>
  {
    if |rs| == 0 then m
    else
      var r := rs[|rs| - 1];
      Register(ResourcesAliases(m, gv, rs[..|rs| - 1]), Entry(WithResource(gv, r.name), r))
  }

  /** Options.discover's middle loop: every resource of one kept list. */
  method AddList(gvrs0: seq<GVR>, m0: map<string, Entry>, gv: GroupVersion, resources: seq<APIResource>)
    returns (gvrs: seq<GVR>, m: map<string, Entry>)
    ensures gvrs == gvrs0 + ListGVRs(gv, resources)
    ensures m == ResourcesAliases(m0, gv, resources)
  {
    gvrs, m := gvrs0, m0;
    for ri := 0 to |resources|
      invariant gvrs == gvrs0 + ListGVRs(gv, resources[..ri])
      invariant m == ResourcesAliases(m0, gv, resources[..ri])
    {
      assert resources[..ri + 1][..ri] == resources[..ri];
      var resource := resources[ri];
      var gvr := WithResource(gv, resource.name);
      gvrs := gvrs + [gvr];
      m := RegisterEntry(m, Entry(gvr, resource));
    }
    assert resources[..|resources|] == resources;
  }

  /** The alias map `discover` fills. */
  function Aliases(lists: seq<APIResourceList>, parse: string -> Result<GroupVersion>): map<string, Entry>
  {
    if |lists| == 0 then map[]
    else
      var l := lists[|lists| - 1];
      var m := Aliases(lists[..|lists| - 1], parse);
      if Kept(l, parse) then ResourcesAliases(m, parse(l.groupVersion).value, l.resources) else m
  }

  /** Options.discover. A discovery error comes back with no aliases and no
      GVRs; otherwise every kept resource is registered under its names and
      its GVR is collected, and the GVRs are sorted by their String form. */
  method Discover(served: Result<seq<APIResourceList>>, parse: string -> Result<GroupVersion>, gvrString: GVR -> string)
    returns (m: map<string, Entry>, gvrs: seq<GVR>, err: Option<Error>)
    ensures served.Err? ==> m == map[] && gvrs == [] && err == Some(served.error)
    ensures served.Ok? ==> err == None
    ensures served.Ok? ==> m == Aliases(served.value, parse)
    ensures served.Ok? ==> gvrs == SortBy(Collected(served.value, parse), gvrString)
  {
    if served.Err? {
      return map[], [], Some(served.error);
    }
    var lists := served.value;
    gvrs := [];
    m := map[];
    for li := 0 to |lists|
      invariant gvrs == Collected(lists[..li], parse)
      invariant m == Aliases(lists[..li], parse)
    {
      assert lists[..li + 1][..li] == lists[..li];
      var list := lists[li];
      if |list.resources| == 0 {
        continue;
      }
      var gv := parse(list.groupVersion);
      if gv.Err? {
        continue;
      }
      gvrs, m := AddList(gvrs, m, gv.value, list.resources);
    }
    assert lists[..|lists|] == lists;
    gvrs := SortBy(gvrs, gvrString);
    err := None;
  }

  /** A GVR is collected exactly when it is the GVR of some resource of a
      kept list. */
  lemma {:induction false} CollectedMembers(lists: seq<APIResourceList>, parse: string -> Result<GroupVersion>, g: GVR)
    ensures g in Collected(lists, parse) <==>
      exists i, j :: 0 <= i < |lists| && Kept(lists[i], parse) && 0 <= j < |lists[i].resources|
        && g == WithResource(parse(lists[i].groupVersion).value, lists[i].resources[j].name)
    decreases |lists|
  {
    if |lists| > 0 {
      var init := lists[..|lists| - 1];
      CollectedMembers(init, parse, g);
      assert forall i :: 0 <= i < |init| ==> init[i] == lists[i];
    }
  }

  /** Every resource of a kept list contributes exactly one GVR. */
  function KeptCount(lists: seq<APIResourceList>, parse: string -> Result<GroupVersion>): nat
  {
    if |lists| == 0 then 0
    else KeptCount(lists[1..], parse) + (if Kept(lists[0], parse) then |lists[0].resources| else 0)
  }

  lemma {:induction false} CollectedLength(lists: seq<APIResourceList>, parse: string -> Result<GroupVersion>)
    ensures |Collected(lists, parse)| == KeptCount(lists, parse)
    decreases |lists|
  {
    if |lists| > 0 {
      var init := lists[..|lists| - 1];
      CollectedLength(init, parse);
      KeptCountSnoc(init, lists[|lists| - 1], parse);
      assert init + [lists[|lists| - 1]] == lists;
    }
  }

  lemma {:induction false} KeptCountSnoc(lists: seq<APIResourceList>, l: APIResourceList, parse: string -> Result<GroupVersion>)
    ensures KeptCount(lists + [l], parse) == KeptCount(lists, parse) + (if Kept(l, parse) then |l.resources| else 0)
    decreases |lists|
  {
    if |lists| > 0 {
      assert (lists + [l])[1..] == lists[1..] + [l];
      KeptCountSnoc(lists[1..], l, parse);
    }
  }

  lemma {:induction false} ResourcesAliasesKeys(m: map<string, Entry>, gv: GroupVersion, rs: seq<APIResource>, k: string)
    ensures k in ResourcesAliases(m, gv, rs) <==> k in m || exists j :: 0 <= j < |rs| && k in Names(rs[j])
    ensures k in ResourcesAliases(m, gv, rs) ==>
      (k in m && ResourcesAliases(m, gv, rs)[k] == m[k])
      || exists j :: 0 <= j < |rs| && k in Names(rs[j]) && ResourcesAliases(m, gv, rs)[k] == Entry(WithResource(gv, rs[j].name), rs[j])
    decreases |rs|
  {
    if |rs| > 0 {
      var init := rs[..|rs| - 1];
      ResourcesAliasesKeys(m, gv, init, k);
      assert forall j :: 0 <= j < |init| ==> init[j] == rs[j];
      var r := rs[|rs| - 1];
      RegisterKeys(ResourcesAliases(m, gv, init), Entry(WithResource(gv, r.name), r), k);
    }
  }

  /** A name is a key of the alias map exactly when some resource of a kept
      list has that name, kind, singular name or short name, and the entry
      it leads to is such a resource, under the GVR of its own list. */
  lemma {:induction false} AliasesKeys(lists: seq<APIResourceList>, parse: string -> Result<GroupVersion>, k: string)
    ensures k in Aliases(lists, parse) <==>
      exists i, j :: 0 <= i < |lists| && Kept(lists[i], parse) && 0 <= j < |lists[i].resources| && k in Names(lists[i].resources[j])
    ensures k in Aliases(lists, parse) ==>
      exists i, j :: 0 <= i < |lists| && Kept(lists[i], parse) && 0 <= j < |lists[i].resources| && k in Names(lists[i].resources[j])
        && Aliases(lists, parse)[k] == Entry(WithResource(parse(lists[i].groupVersion).value, lists[i].resources[j].name), lists[i].resources[j])
    decreases |lists|
  {
    if |lists| > 0 {
      var init := lists[..|lists| - 1];
      var l := lists[|lists| - 1];
      AliasesKeys(init, parse, k);
      assert forall i :: 0 <= i < |init| ==> init[i] == lists[i];
      if Kept(l, parse) {
        ResourcesAliasesKeys(Aliases(init, parse), parse(l.groupVersion).value, l.resources, k);
      }
    }
  }

  /** A later resource overwrites: once the last list is registered, a name
      of one of its resources leads to the last of them that has it. */
  lemma {:induction false} AliasesLaterWins(lists: seq<APIResourceList>, l: APIResourceList, parse: string -> Result<GroupVersion>, j: nat, k: string)
    requires Kept(l, parse) && j < |l.resources| && k in Names(l.resources[j])
    requires forall j' :: j < j' < |l.resources| ==> k !in Names(l.resources[j'])
    ensures k in Aliases(lists + [l], parse)
    ensures Aliases(lists + [l], parse)[k] == Entry(WithResource(parse(l.groupVersion).value, l.resources[j].name), l.resources[j])
  {
    assert (lists + [l])[..|lists|] == lists;
    RegisterLast(Aliases(lists, parse), parse(l.groupVersion).value, l.resources, j, k);
  }

  lemma {:induction false} RegisterLast(m: map<string, Entry>, gv: GroupVersion, rs: seq<APIResource>, j: nat, k: string)
    requires j < |rs| && k in Names(rs[j])
    requires forall j' :: j < j' < |rs| ==> k !in Names(rs[j'])
    ensures k in ResourcesAliases(m, gv, rs) && ResourcesAliases(m, gv, rs)[k] == Entry(WithResource(gv, rs[j].name), rs[j])
    decreases |rs|
  {
    var init := rs[..|rs| - 1];
    var r := rs[|rs| - 1];
    if j < |rs| - 1 {
      assert forall j' :: j < j' < |init| ==> init[j'] == rs[j'];
      RegisterLast(m, gv, init, j, k);
    }
    RegisterKeys(ResourcesAliases(m, gv, init), Entry(WithResource(gv, r.name), r), k);
  }

  /** discover's list comes sorted by String(), and it holds exactly the
      collected GVRs. */
  lemma DiscoverSorted(lists: seq<APIResourceList>, parse: string -> Result<GroupVersion>, gvrString: GVR -> string)
    ensures multiset(SortBy(Collected(lists, parse), gvrString)) == multiset(Collected(lists, parse))
    ensures var s := SortBy(Collected(lists, parse), gvrString);
      forall i, j :: 0 <= i < j < |s| ==> !LexLess(gvrString(s[j]), gvrString(s[i]))
  {
    SortByKeysAscend(Collected(lists, parse), gvrString);
  }

  /** Each discovered GVR's resource name is a key of the alias map. */
  lemma CollectedNamesAreAliases(lists: seq<APIResourceList>, parse: string -> Result<GroupVersion>, g: GVR)
    requires g in Collected(lists, parse)
    ensures g.resource in Aliases(lists, parse)
  {
    CollectedMembers(lists, parse, g);
    var i, j :| 0 <= i < |lists| && Kept(lists[i], parse) && 0 <= j < |lists[i].resources|
        && g == WithResource(parse(lists[i].groupVersion).value, lists[i].resources[j].name);
    assert g.resource in Names(lists[i].resources[j]);
    AliasesKeys(lists, parse, g.resource);
  }

  /** The first loop of Run: for every discovered GVR whose resource name
      is an alias, the GVR of the entry that name leads to. */
  function Selected(m: map<string, Entry>, gvrs: seq<GVR>): seq<GVR>
  {
    if |gvrs| == 0 then []
    else Selected(m, gvrs[..|gvrs| - 1]) + (if gvrs[|gvrs| - 1].resource in m then [m[gvrs[|gvrs| - 1].resource].gvr] else [])
  }

  /** When every resource name is an alias, one GVR is selected per
      discovered GVR, and it is the one the alias map leads to. */
  lemma {:induction false} SelectedAll(m: map<string, Entry>, gvrs: seq<GVR>)
    requires forall g | g in gvrs :: g.resource in m
    ensures |Selected(m, gvrs)| == |gvrs|
    ensures forall i :: 0 <= i < |gvrs| ==> Selected(m, gvrs)[i] == m[gvrs[i].resource].gvr
    decreases |gvrs|
  {
    if |gvrs| > 0 {
      var init := gvrs[..|gvrs| - 1];
      assert forall g | g in init :: g in gvrs;
      SelectedAll(m, init);
    }
  }

  /** Two groups serving a resource named "events": the core group and
      events.k8s.io. */
  const SharedEvents := APIResource("events", "event", "Event", [])
  const CoreEvents := APIResourceList("v1", [SharedEvents])
  const GroupEvents := APIResourceList("events.k8s.io/v1", [SharedEvents])

  function ParseEvents(s: string): Result<GroupVersion>
  {
    if s == "v1" then Ok(GroupVersion("", "v1")) else Ok(GroupVersion("events.k8s.io", "v1"))
  }

  lemma EventsCollected()
    ensures Collected([CoreEvents, GroupEvents], ParseEvents) == [GVR("", "v1", "events"), GVR("events.k8s.io", "v1", "events")]
  {
    CoreCollected();
    assert [CoreEvents, GroupEvents][..1] == [CoreEvents];
    assert ListGVRs(GroupVersion("events.k8s.io", "v1"), GroupEvents.resources) == [GVR("events.k8s.io", "v1", "events")];
  }

  /** The core group alone gives its one GVR. */
  lemma CoreCollected()
    ensures Collected([CoreEvents], ParseEvents) == [GVR("", "v1", "events")]
  {
    assert [CoreEvents][..0] == [];
    assert ListGVRs(GroupVersion("", "v1"), CoreEvents.resources) == [GVR("", "v1", "events")];
  }

  lemma EventsAliased()
    ensures "events" in Aliases([CoreEvents, GroupEvents], ParseEvents)
    ensures Aliases([CoreEvents, GroupEvents], ParseEvents)["events"] == Entry(GVR("events.k8s.io", "v1", "events"), SharedEvents)
  {
    assert "events" in Names(SharedEvents);
    assert [CoreEvents] + [GroupEvents] == [CoreEvents, GroupEvents];
    AliasesLaterWins([CoreEvents], GroupEvents, ParseEvents, 0, "events");
  }

  /** With those two groups, the alias map keeps the later one, so both
      discovered GVRs select the later group's GVR: the list holds a
      duplicate and loses the core group's events. */
  lemma SelectedDuplicates()
    ensures Selected(Aliases([CoreEvents, GroupEvents], ParseEvents), Collected([CoreEvents, GroupEvents], ParseEvents))
      == [GVR("events.k8s.io", "v1", "events"), GVR("events.k8s.io", "v1", "events")]
  {
    EventsCollected();
    EventsAliased();
    SelectedAll(Aliases([CoreEvents, GroupEvents], ParseEvents), Collected([CoreEvents, GroupEvents], ParseEvents));
  }

  /** What Run does with one GVR: the kind, then the schema, then a walk
      from the lower-cased resource name; a KindFor error is wrapped, a
      missing schema is reported, and the walk's error is returned. */
  function Outcome(kindFor: GVR -> Result<GVK>, lookupResource: GVK -> Option<Schema>, defs: Definitions, visited: set<string>, gvr: GVR): Result<Walk>
  {
    match kindFor(gvr)
    case Err(e) => Err(Wrapped("get the group version kind", e))
    case Ok(gvk) =>
      match lookupResource(gvk)
      case None => Err(NoSchemaFound(gvk))
      case Some(s) =>
        var w := Accept(defs, s, Walk(ToLower(gvr.resource), map[], None, visited));
        if w.err.Some? then Err(w.err.value) else Ok(w)
  }

  class Options {
    /** The GVRs to show. */
    var gvrs: seq<GVR>
    /** `inputFieldPathRegex` has been set to `.*`, which matches every path. */
    var matchAllPaths: bool

    constructor ()
      ensures gvrs == [] && !matchAllPaths
    {
      gvrs := [];
      matchAllPaths := false;
    }

    /** The first loop of Run over the discovered GVRs. */
    method SelectGVRs(m: map<string, Entry>, discovered: seq<GVR>)
      modifies this
      ensures gvrs == old(gvrs) + Selected(m, discovered)
      ensures matchAllPaths == (old(matchAllPaths) || Selected(m, discovered) != [])
    {
      for i := 0 to |discovered|
        invariant gvrs == old(gvrs) + Selected(m, discovered[..i])
        invariant matchAllPaths == (old(matchAllPaths) || Selected(m, discovered[..i]) != [])
      {
        assert discovered[..i + 1][..i] == discovered[..i];
        var item := discovered[i];
        if item.resource in m {
          matchAllPaths := true;
          gvrs := gvrs + [m[item.resource].gvr];
        }
      }
      assert discovered[..|discovered|] == discovered;
    }

    /** The second loop of Run. For each selected GVR a fresh visitor walks
        its schema, sharing the process-wide reference set; the first GVR
        whose outcome is an error ends the loop with that error. Otherwise
        the explainer map is Explainers of the GVRs, and the paths are its
        keys: each GVR's paths in ascending order, one after the other. */
    method CollectPaths(kindFor: GVR -> Result<GVK>, lookupResource: GVK -> Option<Schema>, defs: Definitions, refs: AppVisitor.ReferenceSet)
      returns (err: Option<Error>, explainers: map<string, GVR>, paths: seq<AppVisitor.Path>)
      modifies refs
      ensures refs.names == old(refs.names)
      ensures err.None? <==> forall i :: 0 <= i < |gvrs| ==> Outcome(kindFor, lookupResource, defs, refs.names, gvrs[i]).Ok?
      ensures err.Some? ==> exists i :: 0 <= i < |gvrs| && Outcome(kindFor, lookupResource, defs, refs.names, gvrs[i]) == Err(err.value)
                              && (forall j :: 0 <= j < i ==> Outcome(kindFor, lookupResource, defs, refs.names, gvrs[j]).Ok?)
      ensures err.None? ==> explainers == Explainers(kindFor, lookupResource, defs, refs.names, gvrs)
      ensures err.None? ==> forall x :: AppVisitor.Path(x) in paths <==> x in explainers
    {
      ghost var names := refs.names;
      explainers := map[];
      paths := [];
      for i := 0 to |gvrs|
        invariant refs.names == names
        invariant forall j :: 0 <= j < i ==> Outcome(kindFor, lookupResource, defs, names, gvrs[j]).Ok?
        invariant explainers == Explainers(kindFor, lookupResource, defs, names, gvrs[..i])
        invariant forall x :: AppVisitor.Path(x) in paths <==> x in explainers
      {
        var gvr := gvrs[i];
        var found, walked := WalkOne(kindFor, lookupResource, defs, refs, gvr);
        if found.Some? {
          return found, explainers, paths;
        }
        ghost var w := Outcome(kindFor, lookupResource, defs, names, gvr).value;
        ExplainersSnoc(kindFor, lookupResource, defs, names, gvrs, i, w);
        explainers, paths := RecordPaths(explainers, paths, walked, gvr, w.pathSchema.Keys);
      }
      assert gvrs[..|gvrs|] == gvrs;
      err := None;
    }

    /** Options.Run up to the tree: discover, select the GVRs, collect their
        paths. A discovery error is returned before anything changes. */
    method Run(served: Result<seq<APIResourceList>>, parse: string -> Result<GroupVersion>, gvrString: GVR -> string,
               kindFor: GVR -> Result<GVK>, lookupResource: GVK -> Option<Schema>, defs: Definitions, refs: AppVisitor.ReferenceSet)
      returns (err: Option<Error>, explainers: map<string, GVR>, paths: seq<AppVisitor.Path>)
      modifies this, refs
      ensures refs.names == old(refs.names)
      ensures served.Err? ==> err == Some(served.error) && gvrs == old(gvrs)
      ensures served.Ok? ==>
        gvrs == old(gvrs) + Selected(Aliases(served.value, parse), SortBy(Collected(served.value, parse), gvrString))
      ensures served.Ok? ==>
        (err.None? <==> forall i :: 0 <= i < |gvrs| ==> Outcome(kindFor, lookupResource, defs, refs.names, gvrs[i]).Ok?)
      ensures served.Ok? && err.Some? ==> exists i :: 0 <= i < |gvrs| && Outcome(kindFor, lookupResource, defs, refs.names, gvrs[i]) == Err(err.value)
      ensures err.None? ==> explainers == Explainers(kindFor, lookupResource, defs, refs.names, gvrs)
      ensures err.None? ==> forall x :: AppVisitor.Path(x) in paths <==> x in explainers
    {
      var m, discovered, derr := Discover(served, parse, gvrString);
      if derr.Some? {
        return derr, map[], [];
      }
      SelectGVRs(m, discovered);
      err, explainers, paths := CollectPaths(kindFor, lookupResource, defs, refs);
    }

    /** One round of CollectPaths: the paths of one GVR, or its error. */
    method WalkOne(kindFor: GVR -> Result<GVK>, lookupResource: GVK -> Option<Schema>, defs: Definitions, refs: AppVisitor.ReferenceSet, gvr: GVR)
      returns (err: Option<Error>, walked: seq<AppVisitor.Path>)
      modifies refs
      ensures refs.names == old(refs.names)
      ensures err.None? <==> Outcome(kindFor, lookupResource, defs, refs.names, gvr).Ok?
      ensures err.Some? ==> Outcome(kindFor, lookupResource, defs, refs.names, gvr) == Err(err.value)
      ensures err.None? ==> forall x ::
        x in Outcome(kindFor, lookupResource, defs, refs.names, gvr).value.pathSchema <==> AppVisitor.Path(x) in walked
      ensures forall k, l :: 0 <= k < l < |walked| ==> LexLess(walked[k].original, walked[l].original)
    {
      var lower := ToLower(gvr.resource);
      var visitor := new AppVisitor.SchemaVisitor(AppVisitor.Path(lower), refs);
      var gvk := kindFor(gvr);
      if gvk.Err? {
        return Some(Wrapped("get the group version kind", gvk.error)), [];
      }
      var s := lookupResource(gvk.value);
      if s.None? {
        return Some(NoSchemaFound(gvk.value)), [];
      }
      assert visitor.State() == Walk(lower, map[], None, refs.names);
      visitor.Accept(defs, s.value);
      if visitor.err.Some? {
        return visitor.err, [];
      }
      walked := visitor.ListPaths();
      err := None;
      forall x | x in visitor.State().pathSchema ensures AppVisitor.Path(x) in walked {
        assert AppVisitor.Path(x) in visitor.pathSchema;
      }
    }
  }

  /** The inner loop of Run's second loop: each walked path is recorded
      with its GVR and appended to the paths. */
  method RecordPaths(explainers0: map<string, GVR>, paths0: seq<AppVisitor.Path>, walked: seq<AppVisitor.Path>, gvr: GVR, ghost keys: set<string>)
    returns (explainers: map<string, GVR>, paths: seq<AppVisitor.Path>)
    requires forall x :: x in keys <==> AppVisitor.Path(x) in walked
    ensures explainers == explainers0 + map x | x in keys :: gvr
    ensures paths == paths0 + walked
  {
    explainers, paths := explainers0, paths0;
    for k := 0 to |walked|
      invariant forall x :: x in explainers <==> x in explainers0 || AppVisitor.Path(x) in walked[..k]
      invariant forall x | x in explainers :: explainers[x] == if AppVisitor.Path(x) in walked[..k] then gvr else explainers0[x]
      invariant paths == paths0 + walked[..k]
    {
      assert walked[..k + 1] == walked[..k] + [walked[k]];
      explainers := explainers[walked[k].original := gvr];
      paths := paths + [walked[k]];
    }
    assert walked[..|walked|] == walked;
  }

  /** The explainer map after a run without errors: each path walked for a
      GVR leads to it, a later GVR's walk overriding an earlier one's. */
  function Explainers(kindFor: GVR -> Result<GVK>, lookupResource: GVK -> Option<Schema>, defs: Definitions, visited: set<string>, gvrs: seq<GVR>): map<string, GVR>
  {
    if |gvrs| == 0 then map[]
    else
      var g := gvrs[|gvrs| - 1];
      var before := Explainers(kindFor, lookupResource, defs, visited, gvrs[..|gvrs| - 1]);
      match Outcome(kindFor, lookupResource, defs, visited, g)
      case Ok(w) => before + map x | x in w.pathSchema :: g
      case Err(_) => before
  }

  /** A GVR whose walk succeeded adds its paths to the explainers of the
      GVRs before it. */
  lemma ExplainersSnoc(kindFor: GVR -> Result<GVK>, lookupResource: GVK -> Option<Schema>, defs: Definitions, visited: set<string>,
                       gvrs: seq<GVR>, i: nat, w: Walk)
    requires i < |gvrs| && Outcome(kindFor, lookupResource, defs, visited, gvrs[i]) == Ok(w)
    ensures Explainers(kindFor, lookupResource, defs, visited, gvrs[..i + 1])
      == Explainers(kindFor, lookupResource, defs, visited, gvrs[..i]) + map x | x in w.pathSchema.Keys :: gvrs[i]
  {
    assert gvrs[..i + 1][..i] == gvrs[..i];
  }

  /** A path has an explainer exactly when some GVR's walk recorded it, and
      its explainer is the last such GVR. */
  lemma {:induction false} ExplainersLastWins(kindFor: GVR -> Result<GVK>, lookupResource: GVK -> Option<Schema>, defs: Definitions, visited: set<string>, gvrs: seq<GVR>, x: string)
    ensures x in Explainers(kindFor, lookupResource, defs, visited, gvrs) <==>
      exists i :: 0 <= i < |gvrs| && Recorded(kindFor, lookupResource, defs, visited, gvrs[i], x)
    ensures x in Explainers(kindFor, lookupResource, defs, visited, gvrs) ==>
      exists i :: 0 <= i < |gvrs| && Recorded(kindFor, lookupResource, defs, visited, gvrs[i], x)
        && Explainers(kindFor, lookupResource, defs, visited, gvrs)[x] == gvrs[i]
        && forall j :: i < j < |gvrs| ==> !Recorded(kindFor, lookupResource, defs, visited, gvrs[j], x)
    decreases |gvrs|
  {
    if |gvrs| > 0 {
      var n := |gvrs| - 1;
      var init := gvrs[..n];
      ExplainersLastWins(kindFor, lookupResource, defs, visited, init, x);
      ExplainersLast(kindFor, lookupResource, defs, visited, gvrs, x);
      var e, e0 := Explainers(kindFor, lookupResource, defs, visited, gvrs), Explainers(kindFor, lookupResource, defs, visited, init);
      if Recorded(kindFor, lookupResource, defs, visited, gvrs[n], x) {
        assert e[x] == gvrs[n];
      } else {
        forall i | 0 <= i < |gvrs| && Recorded(kindFor, lookupResource, defs, visited, gvrs[i], x)
          ensures x in e0
        {
          assert init[i] == gvrs[i];
        }
        if x in e0 {
          var i :| 0 <= i < |init| && Recorded(kindFor, lookupResource, defs, visited, init[i], x) && e0[x] == init[i]
                   && forall j :: i < j < |init| ==> !Recorded(kindFor, lookupResource, defs, visited, init[j], x);
          forall j | i < j < |gvrs| ensures !Recorded(kindFor, lookupResource, defs, visited, gvrs[j], x) {
            if j < n {
              assert init[j] == gvrs[j];
            }
          }
          assert init[i] == gvrs[i] && e[x] == gvrs[i];
        }
      }
    }
  }

  /** The explainers of non-empty GVRs: those of all but the last, and the
      last one's recorded paths, which it takes over. */
  lemma ExplainersLast(kindFor: GVR -> Result<GVK>, lookupResource: GVK -> Option<Schema>, defs: Definitions, visited: set<string>, gvrs: seq<GVR>, x: string)
    requires |gvrs| > 0
    ensures x in Explainers(kindFor, lookupResource, defs, visited, gvrs) <==>
      x in Explainers(kindFor, lookupResource, defs, visited, gvrs[..|gvrs| - 1]) || Recorded(kindFor, lookupResource, defs, visited, gvrs[|gvrs| - 1], x)
    ensures Recorded(kindFor, lookupResource, defs, visited, gvrs[|gvrs| - 1], x) ==>
      Explainers(kindFor, lookupResource, defs, visited, gvrs)[x] == gvrs[|gvrs| - 1]
    ensures !Recorded(kindFor, lookupResource, defs, visited, gvrs[|gvrs| - 1], x) && x in Explainers(kindFor, lookupResource, defs, visited, gvrs) ==>
      Explainers(kindFor, lookupResource, defs, visited, gvrs)[x] == Explainers(kindFor, lookupResource, defs, visited, gvrs[..|gvrs| - 1])[x]
  {
  }

  /** The walk for `g` succeeded and recorded `x`. */
  predicate Recorded(kindFor: GVR -> Result<GVK>, lookupResource: GVK -> Option<Schema>, defs: Definitions, visited: set<string>, g: GVR, x: string)
  {
    Outcome(kindFor, lookupResource, defs, visited, g).Ok? && x in Outcome(kindFor, lookupResource, defs, visited, g).value.pathSchema
  }
}
