# kubectl-apidocs, modelled in Dafny

kubectl-apidocs is a terminal browser for the Kubernetes API. It discovers
the API groups a cluster serves and walks each resource's OpenAPI schema
into dotted field paths such as `pods.spec.containers.image`. It turns those
paths into a trie of fields and shows groups, resources and fields as a
tview tree. Key handlers open sub-views, step back, search, filter and show
`kubectl explain` text for the current node.

This project models the core of that program:

- **The field tries.** `FieldTrie` models `ResourceFieldsNode` and main.go's
  `Node`. `AppTree` models `pkg/app`'s `Node`, which is keyed by path parts.
- **The schema visitors.** `AppVisitor` models `pkg/app/visitor.go` and
  main.go's visitor, which share one process-wide set of references.
  `ApiDocsVisitor` models `pkg/apidocs/fieldvisitor.go`, whose set belongs
  to the visitor. Both are proved against one walk function, `Proto.Accept`.
- **getPaths.** `ApiDocsPaths` models the `pkg/apidocs` version in pkg/apidocs/ui.go:260-284, which lists the paths with `listPaths`. The main.go
  version, which also registers explainers, is in `Catalog`.
- **Sorting the groups.** `GroupSort` models `customSortGroups` and both of
  its priority lists.
- **Collecting paths.** `AppOptions` models discovery and `Run` in
  `pkg/app/options.go`.
- **Building the tree.** `Catalog`, `FieldsUI` and `AppUI` model the catalog
  loops of main.go and RunApp, `addChildrenFields` and `addChildren`.
- **The key handlers.** These are modelled as classes over the tree:
  - `CatalogUI` for main.go and RunApp;
  - `LegacyNavigator` for `pkg/apidocs/uievents.go`;
  - `Navigator` for `internal/apidocs/uievents.go`;
  - `AppUI.UIState` for `pkg/app/ui.go`.
- **Search, tree data and links.** `Highlight`, `Search`, `TreeDataOps`,
  `LegacyTreeData` and `TreeLinks` model these.
- **Supporting modules.**
  - `TView` models the widget library's tree nodes as a class, with a value
    (`Snap`) for each subtree.
  - `Kube` holds the API value types.
  - `GoStrings` and `GoSort` hold the parts of Go's `strings` and `sort`
    that the program relies on.

Objects the program updates in place are Dafny classes with `modifies`
frames. Examples are trie nodes, tree nodes, `TreeData`, visitors, the
handlers' state and the link map. Each method's contract states its new
state. Most tie it to a function of the old state. The trie builders state
it through the invariant the trie keeps: every path's chain of parts can be
followed from the root, every node lies on some path's chain, and every
node holds its chain joined by dots as its path. Lemmas prove the
properties of those functions and invariants: the round trip between trie
and tree, ordering, idempotence, error cases, and "nothing else changes".

Services are parameters: the REST mapper's `KindFor`, the OpenAPI
`LookupResource`, `ParseGroupVersion`, `GVR.String`, and the explainer that
fetches `kubectl explain` text. A schema is given as data. Each field of a
`Kind` is either resolved to its sub-schema or carries the error that
`LookupSchemaForField` would return.

## Model

| member | source | states |
|---|---|---|
| GoStrings.Split | pkg/apidocs/fieldnode.go:19 | strings.Split on one separator: at least one part, no part contains the separator, and joining the parts gives back the input |
| GoStrings.SplitJoin | pkg/apidocs/fieldnode.go:19 | splitting the join of parts that contain no separator gives back exactly those parts |
| GoStrings.SplitFirstPart | pkg/apidocs/fieldnode.go:19 | a path below `a + "."` splits into parts whose first part is the first part of `a` |
| GoStrings.ToLower | pkg/apidocs/paths.go:20 | keeps the length and lower-cases each character on its own (ASCII letters) |
| GoStrings.ToLowerIdempotent | pkg/apidocs/uisearch.go:19 | lower-casing a term that is already lower-cased changes nothing |
| GoStrings.Contains | pkg/apidocs/uisearch.go:30 | true exactly when `sub` occurs at some index of `s` |
| GoStrings.LexLessStrictTotalOrder | pkg/app/visitor.go:72-81 | Go's `<` on strings is irreflexive, total on distinct strings and transitive |
| GoSort.SortWith | pkg/apidocs/groupsort.go:22 | sort.SliceStable returns a permutation of its input |
| GoSort.SortWithSorted | pkg/apidocs/groupsort.go:22 | with a strict weak order, the stable sort's result is sorted |
| GoSort.SortWithAgree | pkg/apidocs/groupsort.go:22-34 | two comparators that agree on distinct pairs of a duplicate-free input sort it identically |
| GoSort.DistinctPermutation | pkg/app/options.go:217-219 | a permutation of a duplicate-free sequence is duplicate-free |
| GoSort.SortBy | pkg/app/options.go:217-219 | sorting by a string key returns a permutation |
| GoSort.SortByKeysAscend | pkg/app/options.go:217-219 | after sorting by key, no later element's key is less than an earlier one's |
| GoSort.SortStrings | pkg/app/ui.go:32 | sort.Strings returns a permutation |
| GoSort.SortStringsAscending | pkg/app/ui.go:32 | duplicate-free strings come out duplicate-free and strictly ascending |
| GoSort.MapKeys | pkg/app/ui.go:28-31 | ranging over a map yields each key exactly once and nothing else |
| GoSort.SortedKeys | pkg/apidocs/ui.go:240-245 | collecting and sorting a map's keys gives the single ascending order of the key set, whatever the range order was |
| GoSort.LeastExists | pkg/apidocs/ui.go:245 | every non-empty set of strings has a least element under Go's `<` |
| GoSort.AscendingSorted | pkg/apidocs/ui.go:245 | the ascending order of a key set holds exactly its keys, each less than the next |
| GoSort.AscendingMembers | pkg/apidocs/ui.go:245 | the ascending order holds exactly the keys, as many as the set has |
| GoSort.AscendingDistinct | pkg/apidocs/ui.go:245 | the ascending order holds each key once |
| GoSort.AscendingUnique | pkg/apidocs/ui.go:245 | any strictly ascending listing of a set is its ascending order |
| GoSort.SameAscending | pkg/apidocs/ui.go:245 | two strictly ascending listings of the same strings are equal |
| GroupSort.Rank | pkg/apidocs/groupsort.go:12-20 | a value's position in the priority list, below the list's length exactly when listed, at its first occurrence |
| GroupSort.PriorityLessIsRankLess | pkg/apidocs/groupsort.go:22-34 | on distinct group versions the comparator's loop is exactly "lower rank, or both unlisted and Go-less" |
| GroupSort.PriorityLessSelf | pkg/apidocs/groupsort.go:22-34 | the comparator reports a listed value as less than itself and an unlisted one as not |
| GroupSort.PriorityLessHead | pkg/apidocs/groupsort.go:23-26 | the first listed version is less than everything, and no other value is less than it |
| GroupSort.PriorityLessUnlisted | pkg/apidocs/groupsort.go:32-33 | with neither value listed, the comparator is Go's `<` |
| GroupSort.ApiDocsRules | pkg/apidocs/groupsort.go:10-35 | "v1" sorts first, "apps/v1" second, and the rest in Go's `<` order |
| GroupSort.MainRules | main.go:64-89 | "apps/v1" sorts first; distinct versions are ordered by rank in the seven-entry list, then by `<` |
| GroupSort.CustomSortGroups | pkg/apidocs/ui.go:207-233 | customSortGroups loses no list and duplicates none |
| GroupSort.GroupRankLessStrictWeak | pkg/apidocs/groupsort.go:22-34 | the intended order by rank and name is a strict weak order |
| GroupSort.CustomSortGroupsOrder | pkg/apidocs/ui.go:207-233 | with distinct group versions the result is a permutation: listed versions first in list order, then the rest ascending |
| Proto.FieldPath | pkg/app/visitor.go:30-32 | a field's path is the previous path, a dot and the key |
| Proto.Accept | pkg/app/visitor.go:26-81 | a walk keeps the reference stack as it found it and never forgets a recorded path |
| Proto.VisitFields | pkg/app/visitor.go:33-46 | the field loop keeps the reference stack and never forgets a recorded path |
| Proto.AcceptKeys | pkg/app/visitor.go:26-58 | after a walk a path is recorded exactly when it was recorded before or the schema reaches it, a reference-free definition |
| Proto.VisitFieldsKeys | pkg/app/visitor.go:33-46 | the same for the field loop: recorded before, or reached by some resolved field before the first failure |
| Proto.AcceptErrors | pkg/app/visitor.go:35-39 | a walk ends without error exactly when it started without one and no lookup on its way fails |
| Proto.VisitFieldsErrors | pkg/app/visitor.go:35-39 | the field loop ends without error exactly when it started without one and no field lookup fails |
| Proto.ReachesPrefixed | pkg/app/visitor.go:30-32 | every path a walk reaches extends its starting path by a dot |
| Proto.FieldsReachPrefixed | pkg/app/visitor.go:30-32 | every path the field loop reaches extends its prefix by a dot |
| AppVisitor.OriginalsUpdate | main.go:382-384 | paths are keyed by their one field, so recording a path updates the by-text map under its text |
| AppVisitor.ReferenceSet.constructor | pkg/app/visitor.go:49 | the process-wide set of references starts empty |
| AppVisitor.SchemaVisitor.constructor | pkg/app/options.go:105-112 | a new visitor starts at the given path with nothing recorded and no error, sharing the process-wide set |
| AppVisitor.SchemaVisitor.Accept | pkg/app/visitor.go:26-70 | schema.Accept(visitor) leaves the visitor in the state the walk function gives |
| AppVisitor.SchemaVisitor.VisitKind | pkg/app/visitor.go:26-47 | computes every key's path from the entry prefix, then records and walks key by key, stopping at the first failed lookup, as VisitFields says |
| AppVisitor.SchemaVisitor.VisitReference | pkg/app/visitor.go:49-58 | skips a reference already in the process-wide set; otherwise walks it inside the set and removes it again, as the walk function says |
| AppVisitor.SchemaVisitor.VisitPrimitive | pkg/app/visitor.go:60-62 | a primitive changes nothing |
| AppVisitor.SchemaVisitor.VisitArray | pkg/app/visitor.go:64-66 | an array is walked as its element schema |
| AppVisitor.SchemaVisitor.VisitMap | pkg/app/visitor.go:68-70 | a map is walked as its value schema |
| AppVisitor.SchemaVisitor.ListPaths | pkg/app/visitor.go:72-81 | every recorded path once, in ascending order of its text |
| ApiDocsVisitor.SchemaVisitor.constructor | pkg/apidocs/paths.go:18-23 | a new visitor starts at the given path with nothing recorded, no error and an empty reference set of its own |
| ApiDocsVisitor.SchemaVisitor.Accept | pkg/apidocs/fieldvisitor.go:20-57 | the walk with the visitor's own reference set leaves the state the walk function gives |
| ApiDocsVisitor.SchemaVisitor.VisitKind | pkg/apidocs/fieldvisitor.go:20-36 | the key loop of the walk function, stopping at the first failed lookup |
| ApiDocsVisitor.SchemaVisitor.VisitReference | pkg/apidocs/fieldvisitor.go:38-45 | skips a reference being walked; otherwise walks it and removes it from the set again |
| ApiDocsVisitor.SchemaVisitor.VisitPrimitive | pkg/apidocs/fieldvisitor.go:47-49 | a primitive changes nothing |
| ApiDocsVisitor.SchemaVisitor.VisitArray | pkg/apidocs/fieldvisitor.go:51-53 | an array is walked as its element schema |
| ApiDocsVisitor.SchemaVisitor.VisitMap | pkg/apidocs/fieldvisitor.go:55-57 | a map is walked as its value schema |
| ApiDocsVisitor.SchemaVisitor.ListPaths | pkg/apidocs/fieldvisitor.go:59-68 | every recorded path once, strictly ascending |
| ApiDocsPaths.Start | pkg/apidocs/ui.go:264-269 | the visitor starts at the lower-cased resource name with nothing recorded, no error and no references |
| ApiDocsPaths.WalkFromStart | pkg/apidocs/ui.go:278-282 | from the start, the walk fails exactly when a lookup fails; otherwise it records exactly the reachable paths, all below `resource.` |
| ApiDocsPaths.GetPaths | pkg/apidocs/ui.go:260-284 | a KindFor error is returned. A missing schema or a failed walk returns no paths and a nil error. Otherwise the reachable paths come once each, ascending, below the lower-cased resource |
| ApiDocsPaths.LostLookupError | pkg/apidocs/ui.go:278-281 | a schema whose field lookup fails gives no paths and no error |
| ApiDocsPaths.LostMissingSchema | pkg/apidocs/ui.go:274-277 | a kind without a schema gives no paths and no error |
| ApiDocsPaths.GetPathsReporting | pkg/apidocs/ui.go:260-284 | the same, except that a missing schema and the walk's own error are both reported |
| FieldTrie.ResourceFieldsNode.constructor | pkg/apidocs/fieldnode.go:12-16 | a new trie node has no name, no path and an empty child map |
| FieldTrie.ResourceFieldsNode.Root | pkg/apidocs/ui.go:68 | the catalog's root trie node has the given name and no children |
| FieldTrie.ResourceFieldsNode.AddChild | pkg/apidocs/fieldnode.go:27-30 | a missing child is created with the part as its name, no path and no children, and linked under the part; nothing else changes |
| FieldTrie.ResourceFieldsNode.Descend | pkg/apidocs/fieldnode.go:22-34 | one turn of the loop: the child under the part exists and is reused if it was there; it gets the joined path only if it had none; no other node changes |
| FieldTrie.ResourceFieldsNode.Step | pkg/apidocs/fieldnode.go:21-35 | a loop turn extends the walked chain and keeps the since-the-start facts |
| FieldTrie.ResourceFieldsNode.AddPath | pkg/apidocs/fieldnode.go:18-36 | the walked chain spells the dot-split parts, each node named by its part with the path so far. Only new nodes, all on the chain, join. Names and set paths stay, no child is lost, nodes off the chain are untouched |
| FieldTrie.ResourceFieldsNode.AddPathIdempotent | pkg/apidocs/fieldnode.go:18-36 | adding a path the trie already holds walks the same chain and changes no node, name, path or child |
| FieldTrie.ResourceFieldsNode.SameLine | pkg/apidocs/fieldnode.go:27-31 | two walks down the same parts, with no child lost in between, meet the same nodes |
| FieldTrie.ResourceFieldsNode.LinePathsKept | pkg/apidocs/fieldnode.go:32-34 | along a repeated walk every node keeps its path |
| FieldTrie.ResourceFieldsNode.LineChildrenKept | pkg/apidocs/fieldnode.go:27-30 | along a walk whose links already existed, no node's children change |
| FieldTrie.ResourceFieldsNode.EmptyPathAddsChild | pkg/apidocs/fieldnode.go:18-36 | as written, adding "" to an empty trie creates a child under "" |
| FieldTrie.ResourceFieldsNode.AddFieldPath | pkg/apidocs/fieldnode_test.go:145-152 | the empty path changes nothing; any other path is added as AddPath adds it |
| AppTree.InsertShape | pkg/app/node.go:38-56 | adding a path keeps the name and every other child, gains the first key, and the empty path changes nothing |
| AppTree.InsertMakesChain | pkg/app/node.go:38-56 | after AddPath(path) the chain of keys of `path` exists |
| AppTree.InsertKeepsChains | pkg/app/node.go:38-56 | every chain that existed survives adding a path |
| AppTree.InsertOnlyPrefixes | pkg/app/node.go:38-56 | adding a path creates no chain except prefixes of that path |
| AppTree.InsertIdempotent | pkg/app/node.go:38-56 | adding the same path twice is adding it once |
| AppTree.InsertWellNamed | pkg/app/node.go:47-50 | a new child is named by its key, so every child stays named by its key |
| AppTree.Node.constructor | pkg/app/options.go:140 | `&Node{Name: name}` stands for the tree with that name and no children |
| AppTree.Node.EnsureChild | pkg/app/node.go:42-51 | the child under the key exists afterwards, fresh and empty if it was missing; every other child is kept |
| AppTree.Node.AddPath | pkg/app/node.go:38-56 | the node's tree becomes Insert(old tree, path), and no existing child is replaced |
| AppTree.Node.Extend | pkg/app/node.go:52-55 | the rest of the path is inserted below the child under the key |
| AppTree.Node.SortChildren | pkg/app/node.go:12-35 | rebuilding every child map in key order keeps the tree it stands for, the footprint and the child map |
| AppTree.Node.SortEach | pkg/app/node.go:22-33 | the new map holds the same child under every key of `keys`, and the tree is unchanged |
| AppTree.Node.SortChild | pkg/app/node.go:29-30 | sorting one child keeps the tree |
| AppUI.BuiltShape | pkg/app/ui.go:23-40 | read back as a trie, the tree that addChildren builds is the trie it came from |
| AppUI.BuiltAscending | pkg/app/ui.go:28-34 | addChildren's children come in strictly ascending order of their names, one per key |
| AppUI.AddChildren | pkg/app/ui.go:23-40 | a parent with children turns green and toggles its expansion. It then gains, in key order, the nodes Built gives. Nothing that existed changes but the parent |
| AppUI.MarkParent | pkg/app/ui.go:24-27 | the parent turns green and its expansion flips; its children stay |
| AppUI.AddAll | pkg/app/ui.go:34-39 | the parent gains exactly the wanted node values, in key order |
| AppUI.AddOne | pkg/app/ui.go:35-38 | one new child node, filled with its own subtree, is appended |
| AppUI.NewChildNode | pkg/app/ui.go:35-38 | a fresh node named like the trie child, holding it as reference, with its subtree built |
| AppUI.BuildRoot | pkg/app/ui.go:18-54 | the root is expanded, green if the trie has children and otherwise the background colour, with addChildren's children |
| AppUI.Expand | pkg/app/ui.go:54 | SetExpanded(true) keeps the children |
| AppUI.UIState.constructor | pkg/app/ui.go:13-66 | the view starts on the built root, which is current and alone on the stack, with the tree focused |
| AppUI.UIState.Select | pkg/app/ui.go:69-85 | a gateways or statefulsets node with children is pushed, shown as root, made current and expanded; any other node toggles |
| AppUI.UIState.TreeTab | pkg/app/ui.go:110-113 | Tab in the tree focuses the details view |
| AppUI.UIState.Escape | pkg/app/ui.go:115-125 | Esc is consumed exactly when the stack holds more than the root. It then pops, shows the new top and keeps the popped node current. The root is never popped |
| AppUI.UIState.DetailsTab | pkg/app/ui.go:128-133 | Tab in the details view focuses the tree |
| AppOptions.ListGVRs | pkg/app/options.go:202-204 | one GVR per resource of the list, in order, under the list's group version |
| AppOptions.RegisterKeys | pkg/app/options.go:209-214 | registering a resource makes each of its name, kind, singular and short names lead to it; every other key keeps its entry |
| AppOptions.RegisterEntry | pkg/app/options.go:205-214 | discover's innermost loop registers the entry under all its names |
| AppOptions.AddList | pkg/app/options.go:202-215 | a kept list appends its GVRs and registers all its resources |
| AppOptions.Discover | pkg/app/options.go:187-221 | a discovery error comes back with nothing. Otherwise every kept resource is registered and collected, and the GVRs are sorted by String() |
| AppOptions.CollectedMembers | pkg/app/options.go:194-204 | a GVR is collected exactly when it belongs to a resource of a list that has resources and whose group version parses |
| AppOptions.CollectedLength | pkg/app/options.go:194-204 | one GVR per resource of a kept list |
| AppOptions.AliasesKeys | pkg/app/options.go:194-215 | a name is a key exactly when some kept resource has it as name, kind, singular or short name; it leads to such a resource under its own list's GVR |
| AppOptions.AliasesLaterWins | pkg/app/options.go:209-214 | the last resource registered under a name wins |
| AppOptions.DiscoverSorted | pkg/app/options.go:217-219 | discover's list is a permutation of the collected GVRs, ascending by String() |
| AppOptions.CollectedNamesAreAliases | pkg/app/options.go:82-87 | the resource name of every discovered GVR is an alias key, so Run's first loop never skips one |
| AppOptions.SelectedAll | pkg/app/options.go:82-87 | one GVR is selected per discovered GVR: the one the alias map leads to |
| AppOptions.EventsCollected | pkg/app/options.go:194-204 | core "events" and events.k8s.io "events" both get collected |
| AppOptions.CoreCollected | pkg/app/options.go:194-204 | the core group alone collects its one events GVR |
| AppOptions.EventsAliased | pkg/app/options.go:209 | the alias "events" leads to the later group's resource |
| AppOptions.SelectedDuplicates | pkg/app/options.go:82-87 | with both events groups, Run selects the events.k8s.io GVR twice and never the core one |
| AppOptions.Options.constructor | pkg/app/options.go:76-87 | no GVRs selected and the match-all regexp not set |
| AppOptions.Options.SelectGVRs | pkg/app/options.go:82-87 | appends the selected GVRs; the match-all flag is set exactly when one was selected |
| AppOptions.Options.WalkOne | pkg/app/options.go:104-127 | one GVR's outcome: its error, or its recorded paths ascending, with the process-wide reference set unchanged |
| AppOptions.RecordPaths | pkg/app/options.go:128-136 | every walked path gets this GVR as explainer and is appended to the paths |
| AppOptions.Options.CollectPaths | pkg/app/options.go:102-137 | fails with the first GVR's error; otherwise the explainer map is Explainers and the paths are exactly its keys |
| AppOptions.ExplainersLastWins | pkg/app/options.go:128-134 | a path has an explainer exactly when some GVR recorded it, and the explainer is the last such GVR |
| AppOptions.ExplainersLast | pkg/app/options.go:128-134 | the last GVR takes over its own paths and keeps the earlier explainers for the rest |
| AppOptions.Options.Run | pkg/app/options.go:76-137 | discovery error first, then selection and the path loop, with its error and explainer guarantees |
| Catalog.Register | main.go:364-375 | main.go's getPaths adds every path and the resource name, each leading to this GVR; RunApp registers nothing |
| Catalog.StepsOf | main.go:172-177 | one GVR per resource, in order, under the group version |
| Catalog.ByName | main.go:163-165 | sorting a group's resources by name keeps them as a permutation |
| Catalog.Shown | main.go:167-169 | only groups with resources get a node |
| Catalog.RunAppFailsOnlyOnKindFor | pkg/apidocs/ui.go:63-74 | RunApp's loop ends the process only on a KindFor error; a missing schema leaves no paths and the index panics |
| Catalog.MainFailures | main.go:351-362 | main.go's getPaths ends the process on KindFor's error, on a missing schema (with a nil error) and on the walk's error |
| Catalog.FoundPrefixed | main.go:344-350 | every path found lies below the lower-cased resource name |
| Catalog.FirstEndingIsFirst | main.go:154-200 | the loop runs to the end exactly when every GVR lets it, and otherwise stops at the first GVR that does not |
| Catalog.RegisteredCovers | main.go:364-375 | after a complete main.go loop every visited resource and every path found has an explainer |
| Catalog.RegisteredKeys | main.go:364-375 | when every GVR was found, each one's resource and paths are registered |
| Catalog.RegisteredLast | main.go:364-375 | the last GVR adds exactly its paths and resource to the explainers |
| Catalog.MainGetPaths | main.go:337-377 | ends the process on any failure; otherwise returns exactly the walked paths and registers them plus the resource |
| Catalog.RegisterWalked | main.go:363-375 | the returned paths are the walked paths' texts in order, each leading to the GVR, and the resource name is registered last |
| Catalog.FetchPaths | pkg/apidocs/ui.go:63-66 | the loop's getPaths: ends the process on failure; otherwise paths below the resource name, registered as the source does |
| Catalog.AddResource | main.go:172-195 | one resource: the process ends if getPaths ends it; otherwise its node, over the field trie of the paths getPaths found, is appended to the group |
| Catalog.ResourceOf | main.go:181-192 | no node exactly when there are no paths (the index panics); otherwise the resource node "Kind (name)" with Resource data, over the copy of the one field trie that spells exactly those paths below the lower-cased resource name |
| Catalog.AddResources | main.go:172-196 | the inner loop ends as the first failing GVR says; otherwise the group gains one node per resource, in name order |
| Catalog.GroupOf | main.go:156-196 | a group's node carries its group version, is green with Group data, and holds its resource nodes |
| Catalog.NewGroupNode | main.go:156-158 | a fresh green, expanded group node with Group data and no children |
| Catalog.AddGroup | main.go:154-199 | a group without resources is skipped; otherwise its node is appended to the root, even when empty |
| Catalog.AddGroups | main.go:154-200 | the outer loop stops at the first GVR that ends the process; otherwise the root gains one node per group with resources, in order |
| Catalog.BuildCatalog | main.go:136-200 | ends the process on discovery failure; otherwise the yellow "API Resources" root holds the sorted groups' nodes, with the explainers registered |
| Catalog.NewRoot | main.go:145-146 | the root is "API Resources", yellow, with Root data and no children |
| FieldsUI.Value | pkg/apidocs/ui.go:234-258 | reading the trie as a value keeps each node's name, path and keys, every child named by its key |
| FieldsUI.AddChildrenFields | pkg/apidocs/ui.go:234-258 | a parent with children gets the mark, turns green and toggles. It then gains one Field node per key in ascending order, each filled recursively |
| FieldsUI.MarkParent | pkg/apidocs/ui.go:236-238 | appends the mark, turns the parent green, toggles its expansion and keeps its children |
| FieldsUI.AddAll | pkg/apidocs/ui.go:247-257 | the parent gains the nodes for the children, in ascending key order |
| FieldsUI.AddOne | pkg/apidocs/ui.go:248-256 | one Field node, filled with its own subtree, is appended |
| FieldsUI.NewField | pkg/apidocs/ui.go:248-252 | a fresh Field node named like the trie node, holding its path and GVR, with its subtree built |
| FieldsUI.BuildTrie | pkg/apidocs/ui.go:68-71 | the trie named "root" that the loop builds spells all the paths: each path's parts can be followed from the root, every node lies on some path's chain, and each node holds its chain joined by dots as path |
| FieldsUI.AddSpelled | pkg/apidocs/ui.go:69-71 | one turn of the loop: a trie that spells the earlier paths spells them and the new one after AddPath |
| FieldsUI.AddWalked | pkg/apidocs/fieldnode.go:18-36 | AddPath walks a chain down the path's parts, adds only new nodes, all on that chain, loses no child and changes no path off the chain |
| FieldsUI.TrieOf | pkg/apidocs/ui.go:68-71 | the built trie as a value spells the paths: the keys below each node are exactly the next parts of the paths that continue its chain, each child named by its key with the joined chain as path; the root's keys are the paths' first parts |
| FieldsUI.ValueSpells | pkg/apidocs/fieldnode.go:18-36 | the value read from any node of a trie that spells the paths spells, below that node's chain, exactly the paths' continuations |
| FieldsUI.ValueKid | pkg/apidocs/fieldnode.go:27-34 | each key below a node continues some path; its child's value is named by the key, holds the longer chain joined by dots as path, and spells the paths below that chain |
| FieldsUI.ContinuedChild | pkg/apidocs/fieldnode.go:27-34 | every part that continues some path below a node's chain is a key of that node |
| FieldsUI.SpellsUnique | pkg/apidocs/ui.go:68-71 | two field tries with the same name and path that both spell the same paths are equal, so the paths fix the trie |
| FieldsUI.SpellsHeads | pkg/apidocs/ui.go:68-73 | a trie that spells the paths from the root has exactly the paths' first parts as keys, each child named and pathed by its key |
| FieldsUI.HeadsMembers | pkg/apidocs/ui.go:69-73 | a first part is among the heads exactly when some path starts with it |
| FieldsUI.FillTmp | pkg/apidocs/ui.go:72-73 | the tmp node holds the built nodes for the trie's children |
| FieldsUI.Relabel | pkg/apidocs/ui.go:75-80 | the node becomes "Kind (name)" with Resource data carrying the same path and the GVR; flags and children are kept |
| FieldsUI.FirstAsResource | pkg/apidocs/ui.go:74-80 | no node when the trie has no children (the index panics); otherwise the first child, for the least key, relabelled |
| FieldsUI.ResourceNode | pkg/apidocs/ui.go:68-80 | no node exactly when there are no paths; otherwise the node is built from the least first part's subtrie, which spells every path from that part on; when all paths lie below a prefix that part is the prefix's first part |
| TView.TreeData.constructor | internal/apidocs/treedata.go:20-29 | new TreeData has the given type, path and GVR and is not in preview |
| TView.TreeNode.constructor | pkg/app/ui.go:35 | tview.NewTreeNode: the text, no children, expanded, no reference, default colour |
| TView.TreeNode.AddChild | pkg/app/ui.go:37 | AddChild appends the child |
| TView.Attach | main.go:195 | appending a separate subtree keeps the parent's other children and adds that subtree's value last |
| TreeDataOps.ExtractTreeData | internal/apidocs/treedata.go:31-36 | the TreeData behind the reference, or the "get-ref failed" error exactly when there is none |
| TreeDataOps.SetInPreview | internal/apidocs/treedata.go:38-46 | sets only the preview flag, or returns the extraction error and changes nothing |
| TreeDataOps.IsNodeType | internal/apidocs/treedata.go:48-55 | true exactly when the node type is one of those given |
| LegacyTreeData.GetReference | pkg/apidocs/treedata.go:31-37 | the TreeData when there is one; otherwise the process exits |
| LegacyTreeData.SetInPreview | pkg/apidocs/treedata.go:39-43 | sets only the preview flag, or exits when the node holds no TreeData |
| Highlight.SearchAndHighlight | pkg/apidocs/uisearch.go:23-40 | every node reachable whose lower-cased text contains the term turns red; every other node keeps its colour |
| Highlight.Recolor | pkg/apidocs/uisearch.go:23-40 | the recursion colours every matching reachable node red and leaves the rest as they were |
| Highlight.ResetNodeColors | pkg/apidocs/uisearch.go:43-54 | every reachable node turns white; nothing else changes |
| Highlight.ResetTree | pkg/apidocs/uisearch.go:43-54 | resetting a whole tree gives the tree of the same shape, texts, flags and references, every node white |
| Highlight.WhitenedSnap | pkg/apidocs/uisearch.go:43-54 | a tree in which only colours changed and every reachable node is white has the whitened value it had |
| Highlight.WhitenedTwice | pkg/apidocs/uisearch.go:43-54 | resetting the colours of a reset tree changes nothing |
| Highlight.HighlightMatchingNodes | pkg/apidocs/uisearch.go:11-21 | an empty term whitens the tree; otherwise the lower-cased term is highlighted; shape, texts and flags stay |
| Search.FilterAllEmpty | internal/apidocs/uisearch.go:26-33 | no child is kept exactly when no child subtree is kept |
| Search.FilterKept | internal/apidocs/uisearch.go:14-35 | a subtree is kept exactly when it has TreeData and either matches as a Resource or Field or has a kept child. Root and Group nodes are kept only through their children |
| Search.FilterAllOrder | internal/apidocs/uisearch.go:27-44 | the copy keeps exactly the kept children, in their original order |
| Search.FilterExpanded | internal/apidocs/uisearch.go:37-39 | every node of a copy is expanded |
| Search.FilterAllExpanded | internal/apidocs/uisearch.go:37-39 | every kept child copy is fully expanded |
| Search.FilterFixed | internal/apidocs/uisearch.go:9-51 | filtering a copy again with the same term gives it back |
| Search.FilterAllFixed | internal/apidocs/uisearch.go:26-33 | filtering the kept copies again gives them back |
| Search.BuildFilteredTree | internal/apidocs/uisearch.go:9-51 | nil for nil or for a dropped subtree; otherwise a tree of new nodes whose value is the filtered copy; the source is unchanged |
| Search.KeptChildren | internal/apidocs/uisearch.go:26-33 | the filtered copies of the kept children, in order, all new nodes |
| Search.Clone | internal/apidocs/uisearch.go:37-44 | a new expanded node with the same text and reference, holding the kept copies |
| TreeLinks.FillLinked | internal/apidocs/links.go:16-21 | FillLinks links exactly the nodes below the root, each to a node that has it as a child; other links stay |
| TreeLinks.FillParents | internal/apidocs/links.go:16-21 | filled from nothing, the links are exactly the nodes below the root, each to a parent |
| TreeLinks.TreeLinks.constructor | internal/apidocs/links.go:10-14 | no links yet |
| TreeLinks.TreeLinks.FillLinks | internal/apidocs/links.go:16-21 | the link map becomes Fill of the old map |
| TreeLinks.TreeLinks.LinkChild | internal/apidocs/links.go:17-20 | one loop round: link the child, then fill below it |
| CatalogUI.Handlers.constructor | main.go:203-206 | the root is alone on the stack, shown and current, and the tree has the focus |
| CatalogUI.Handlers.Select | main.go:232-254 | nil does nothing and a node without TreeData exits. Otherwise an unpreviewed Group or Resource is previewed, pushed, shown, made current and expanded, and any other node toggles |
| CatalogUI.Handlers.SelectData | pkg/apidocs/ui.go:120-142 | Select on a node with TreeData, as above |
| CatalogUI.Handlers.Preview | pkg/apidocs/ui.go:128-136 | the opening branch of Select |
| CatalogUI.Handlers.Push | pkg/apidocs/ui.go:133-136 | push, show as root, make current, expand |
| CatalogUI.Handlers.TreeTab | main.go:257-262 | Tab focuses the details view |
| CatalogUI.Handlers.DetailsTab | main.go:219-229 | Tab focuses the tree |
| CatalogUI.Handlers.Escape | main.go:257-276 | consumed exactly when the stack holds more than the root. The top then leaves preview with its expanded flag kept, is popped and made current, and the new top is shown |
| CatalogUI.Handlers.Drop | pkg/apidocs/ui.go:155-160 | pop, show the new top, make the left node current |
| CatalogUI.Handlers.ChangedMain | main.go:280-296 | shows the node's path, with the registered explainer's text for a Field or Resource that has one; a node without data exits |
| CatalogUI.Handlers.ChangedRunApp | pkg/apidocs/ui.go:168-187 | shows the node's path, with the explainer's text for a Field or Resource when it gives one |
| CatalogUI.RegisteredDetails | main.go:280-296 | the text starts with the path, and has more exactly for a Field or Resource with a registered explainer |
| LegacyNavigator.ExplainedDetails | pkg/apidocs/uievents.go:127-135 | the text starts with the path, and has more only for a Field or Resource that the explainer explains |
| LegacyNavigator.CacheShowsSame | internal/apidocs/uievents.go:171-185 | the newer handler's cache shows the same details as this uncached one whenever the cache is truthful |
| LegacyNavigator.UIState.constructor | pkg/apidocs/uievents.go:40-41 | the stack holds the root, shown and current, with no error and the input closed |
| LegacyNavigator.UIState.Select | pkg/apidocs/uievents.go:44-69 | nil does nothing; a node without data records the error; otherwise an unpreviewed Group or Resource opens and any other node toggles |
| LegacyNavigator.UIState.SelectData | pkg/apidocs/uievents.go:56-68 | Select on a node with TreeData |
| LegacyNavigator.UIState.Preview | pkg/apidocs/uievents.go:56-64 | the opening branch of Select |
| LegacyNavigator.UIState.Push | pkg/apidocs/uievents.go:62-64 | push, show as root, make current, expand |
| LegacyNavigator.UIState.TreeTab | pkg/apidocs/uievents.go:76-79 | Tab focuses the details view |
| LegacyNavigator.UIState.DetailsTab | pkg/apidocs/uievents.go:143-150 | Tab focuses the tree |
| LegacyNavigator.UIState.Escape | pkg/apidocs/uievents.go:81-110 | consumed exactly when the stack holds more than the root. The top then leaves preview (Resource collapsed, Group expanded), is popped and made current |
| LegacyNavigator.UIState.Pop | pkg/apidocs/uievents.go:83-107 | the consuming branch of Escape |
| LegacyNavigator.UIState.PopRest | pkg/apidocs/uievents.go:90-107 | the type tests and the pop |
| LegacyNavigator.UIState.Changed | pkg/apidocs/uievents.go:117-136 | shows the path and the explanation of a Field or Resource, or records the error of a node without data |
| LegacyNavigator.UIState.Slash | pkg/apidocs/uievents.go:178-188 | "/" opens the input for a search unless it is open |
| LegacyNavigator.UIState.Colon | pkg/apidocs/uievents.go:189-199 | ":" opens the input for a command unless it is open |
| LegacyNavigator.UIState.CmdDone | pkg/apidocs/uievents.go:154-169 | on Enter a search highlights the term over the whole tree, then the input is cleared, closed and the tree focused; commands and other keys change no colour |
| LegacyNavigator.UIState.CloseInput | pkg/apidocs/uievents.go:164-167 | clear, close, hide, focus the tree |
| Navigator.Describe | internal/apidocs/uievents.go:151-185 | the changed handler's details and cache: a cache hit shows the cached text; a miss asks the explainer and caches only what it gives; Root and Group show the path |
| Navigator.DescribeTwice | internal/apidocs/uievents.go:171-185 | describing the same node twice shows the same text and caches nothing new |
| Navigator.UIState.constructor | internal/apidocs/uievents.go:36-42 | the root is alone on the stack, shown and current, with parent links for the whole tree, no error, no cache and the input closed |
| Navigator.UIState.Select | internal/apidocs/uievents.go:46-85 | nil does nothing; a node without data records the error; otherwise SelectDone by case |
| Navigator.UIState.SelectData | internal/apidocs/uievents.go:53-84 | Select on a node with TreeData |
| Navigator.UIState.SelectToggle | internal/apidocs/uievents.go:71-83 | the Root toggles each child once per time it is listed; any other node toggles itself |
| Navigator.UIState.Preview | internal/apidocs/uievents.go:59-69 | an unpreviewed Group or Resource is previewed, pushed, shown, made current and expanded |
| Navigator.UIState.Push | internal/apidocs/uievents.go:65-68 | push, show as root, make current, expand |
| Navigator.UIState.Escape | internal/apidocs/uievents.go:107-144 | consumed exactly when the stack holds more than the root or a filter is shown. A filter is left for the full tree; otherwise the top is popped (PopDone). The root is never popped |
| Navigator.UIState.Pop | internal/apidocs/uievents.go:117-141 | leave the top sub-view |
| Navigator.UIState.PopRest | internal/apidocs/uievents.go:124-141 | the type tests and the pop |
| Navigator.UIState.Drop | internal/apidocs/uievents.go:138-140 | pop, show the new top, make the left node current |
| Navigator.UIState.TreeTab | internal/apidocs/uievents.go:89-92 | Tab focuses the details view |
| Navigator.UIState.DetailsTab | internal/apidocs/uievents.go:209-218 | Tab focuses the tree |
| Navigator.UIState.ExpandCollapseKey | internal/apidocs/uievents.go:97-104 | h/l replace the recorded error with expandCollapseHJKL's outcome |
| Navigator.UIState.Changed | internal/apidocs/uievents.go:151-169 | details and cache as Describe gives, or the error of a node without data |
| Navigator.UIState.ShowDetails | internal/apidocs/uievents.go:160-168 | the path, explained for a Field or Resource |
| Navigator.UIState.ExplainPath | internal/apidocs/uievents.go:171-185 | cached text at once; otherwise the explainer's text, shown and cached; on failure nothing changes |
| Navigator.UIState.ClosestParent | internal/apidocs/uievents.go:258-268 | the recorded parent, which has the node as a child, or the root |
| Navigator.UIState.Back | internal/apidocs/uievents.go:300-307 | "b" moves the current node to its closest parent |
| Navigator.UIState.Slash | internal/apidocs/uievents.go:274-284 | "/" opens the input for a search unless it is open |
| Navigator.UIState.Colon | internal/apidocs/uievents.go:287-297 | ":" opens the input for a command unless it is open |
| Navigator.UIState.CmdDone | internal/apidocs/uievents.go:220-256 | Enter searches (filtered view) or stops on "q", then clears and closes; Esc closes an open input keeping its text; other keys do nothing |
| Navigator.UIState.EnterDone | internal/apidocs/uievents.go:222-245 | the Enter branch of the done handler |
| Navigator.UIState.CloseInput | internal/apidocs/uievents.go:236-244 | stop on "q", then clear, close, hide and focus the tree |
| Navigator.UIState.ShowFilteredTree | internal/apidocs/uisearch.go:53-70 | an empty term shows the full tree; otherwise the filtered copy or a lone "(no matches)", with every node white, shown and current, with the filter flag set |
| Navigator.FilteredRoot | internal/apidocs/uisearch.go:60-67 | a new tree whose value is the whitened filtered copy, or the whitened "(no matches)" node when nothing matched |
| Navigator.ExpandCollapseHJKL | internal/apidocs/uievents.go:187-207 | error and no change without TreeData. Otherwise a Field or Group sets its own flag, the Root sets its children's, and a Resource changes nothing |
| Navigator.SetHJKL | internal/apidocs/uievents.go:195-206 | only the node's own flag or its children's flags are set |
| Navigator.SetEachChild | internal/apidocs/uievents.go:201-203 | every listed child gets the flag |
| Navigator.SettleExpanded | internal/apidocs/uievents.go:129-136 | a Resource that is left collapses, a Group expands, and anything else keeps its flag |
| Navigator.NewLinks | internal/apidocs/links.go:10-21 | NewTreeLinks then FillLinks(root): every link goes from a node below the root to a parent of it |
| Navigator.ToggleEachChild | internal/apidocs/uievents.go:74-76 | each child is toggled once per occurrence in the child list |

## Left out

- GoSort.SortWith: sort.SliceStable and sort.Strings are modelled as a pure stable insertion sort on sequences, not as in-place array sorts.
- GroupSort.CustomSortGroupsOrder: requires distinct group versions. The comparator reports a listed version as less than itself (PriorityLessSelf), so the stable sort's order among equal listed versions is not stated.
- Go nil maps are modelled as empty maps. Every place the source tests `!= nil` or takes `len` behaves the same on an empty map.
- Rendering, layout, the tview event loop, the border colours set by setFocusOn, and `app.Run` are not modelled. Focus and the shown root are plain fields.
- FieldsUI.AddOne and AppUI.AddOne: the source appends a child before filling it. The model fills it first. Nothing reads the tree in between, so the resulting tree is the same.
- FieldsUI.Relabel: the source updates the existing TreeData's type and GVR in place. The model installs a new TreeData with the same path. No other node shares that TreeData.
- Catalog.GroupOf: the source creates the group node before testing whether the group is empty. The model creates it after the test. An unused node cannot be observed.
- Highlight.Recolor takes the match test as a function parameter. SearchAndHighlight passes the lower-cased Contains test.
- internal/apidocs' own `resetNodeColors`, which showFilteredTree calls at internal/apidocs/uisearch.go:67, is not part of this model. Navigator.UIState.ShowFilteredTree takes it to be the one at pkg/apidocs/uisearch.go:43-53, which turns every node white. The other definition, at pkg/apidocs/uicolors.go:14-38, colours each node by its type and is not modelled.
- Navigator.UIState.Changed, LegacyNavigator.UIState.Changed and CatalogUI.Handlers.ChangedRunApp require a Field or Resource node that reaches the explainer to carry a GVR. The source dereferences `*data.gvr` there (internal/apidocs/uievents.go:177, pkg/apidocs/uievents.go:129, pkg/apidocs/ui.go:176), so a nil GVR makes it panic. That nil-pointer panic is not modelled.
- The changed handler of pkg/app/ui.go (lines 89-103) is not modelled. It reads `Node.OriginalPath`, which pkg/app's `Node` does not have, so it does not compile.
- AppOptions.Options.Run: the final loop (pkg/app/options.go:139-148) is not modelled. It calls `root.AddPath(line.original)` with a string, but pkg/app's AddPath takes a slice. The trie is modelled by AppTree.Node.AddPath instead.
- log.Fatal and log.Fatalf are modelled as an `Ending`, an `exited` flag or a recorded error. Message formatting and process exit are not modelled.
- The explainer (`Explain`, the OpenAPI v3 client) and the discovery client are parameters. The explanation text is opaque.
- GoStrings.ToLower lower-cases ASCII letters only. Go's Unicode case mapping is not modelled.
- Errors are opaque values. `fmt.Errorf` wrapping is kept only as `Wrapped(context, cause)`.
- `listenersErr` is checked after handlers are registered, before any event can set it. That check is dead code and is not modelled.
- Goroutines and concurrency: the program has none in the core, and the model assumes one event at a time.
- Some files do not compile together. Examples are the duplicate `customSortGroups` in pkg/apidocs, the missing `OriginalPath`, and AddPath's argument type. Each file is modelled as written.
- LegacyNavigator.UIState.Preview, LegacyNavigator.UIState.Pop: pkg/apidocs/uievents.go:57 and :85 write `err := setInPreview(...)`, but pkg/apidocs/treedata.go:39 returns nothing, so the error checks after them do not compile. The model takes treedata.go's setInPreview, which ends the process when the node holds no TreeData; on the nodes these handlers reach it cannot end it, so the dropped error checks change nothing.
- LegacyNavigator: pkg/apidocs/uievents.go:50, 90 and 121 call `extractTreeData`, which pkg/apidocs does not define. The model uses the one of internal/apidocs/treedata.go.
- ApiDocsPaths.GetPaths: pkg/apidocs/paths.go:36 calls getVisitedPaths, which the source does not define; the model uses listPaths, as the twin getPaths at pkg/apidocs/ui.go:260-284 does. Otherwise the two are the same line for line.
- Proto.Accept: a reference name missing from the definitions contributes nothing. The OpenAPI library's behaviour there is not part of this model.
- The code that builds internal/apidocs' UIState and fills its tree links is not part of this model. Navigator.UIState.constructor fills the links for the whole tree at start.
- Command-line parsing, config flags and client construction are not modelled (cmd/, `Complete`, `defaultConfigFlags`).

## Findings

| source | as written | input that shows it | evidently intended | confidence | as-written member | corrected member |
|---|---|---|---|---|---|---|
| pkg/apidocs/fieldnode.go:18-36 | AddPath("") splits into [""] and adds a child named "" | AddPath("") on a new node | the empty path adds nothing, as the EmptyPath test at pkg/apidocs/fieldnode_test.go:145-152 expects | not executed | FieldTrie.ResourceFieldsNode.EmptyPathAddsChild | FieldTrie.ResourceFieldsNode.AddFieldPath |
| pkg/apidocs/paths.go:28-35 | a missing schema or a failed walk returns `nil, err` where err is the nil KindFor error | a schema whose field lookup fails; or a kind without a schema | report the failure, as pkg/app/options.go:117-124 does | not executed | ApiDocsPaths.LostLookupError | ApiDocsPaths.GetPathsReporting |
