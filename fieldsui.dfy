/** addChildrenFields of pkg/apidocs/ui.go and main.go, and the part of
    their catalog loops that turns one resource's field paths into a tree
    node: the paths go into a field trie, the trie is copied into tview
    nodes, children in ascending key order, and the copy of the trie's
    first child becomes the resource node.

    main.go's `Node` (pkg/app's Node with an OriginalPath) builds the same
    trie as pkg/apidocs' ResourceFieldsNode, its OriginalPath being the
    Path here, so both loops use `FieldTrie`. */
module FieldsUI {
  import opened Kube
  import opened GoStrings
  import opened GoSort
  import opened TView
  import opened FieldTrie

  /** The suffix addChildrenFields appends to a node with children. */
  const RunAppMark := " >"
  const MainMark := " \U{2BC8}"

  /** The value of a trie node: its name, its path and the values of its
      children under their keys. */
  datatype Fields = Fields(name: string, path: string, kids: map<string, Fields>)

  /** The nodes of the trie at least as deep as `n`. */
  ghost function Deeper(trie: ResourceFieldsNode, n: ResourceFieldsNode): set<ResourceFieldsNode>
    requires n in trie.nodes
    reads trie`nodes, trie.nodes`chain
  {
    set m | m in trie.nodes && |m.chain| >= |n.chain|
  }

  /** A child lies in the trie, one key deeper than its parent. */
  lemma ChildDeeper(trie: ResourceFieldsNode, n: ResourceFieldsNode, k: string)
    requires trie.Valid() && n in trie.nodes && k in n.children
    ensures n.children[k] in trie.nodes && n.children[k].name == k
    ensures Deeper(trie, n.children[k]) < Deeper(trie, n)
  {
    assert trie.ChildOk(n, k);
    var c := n.children[k];
    assert c.chain == n.chain + [k];
    assert n in Deeper(trie, n) && n !in Deeper(trie, c);
  }

  /** The trie node `n` read as a value: its name, its path and, under each
      of its keys, the value of the child, which is named by the key. Once
      built the trie no longer changes, so addChildrenFields reading the
      nodes one by one reads this value. */
  function Value(trie: ResourceFieldsNode, n: ResourceFieldsNode): (r: Fields)
    requires trie.Valid() && n in trie.nodes
    reads trie`nodes, trie.nodes`children, trie.nodes`chain, trie.nodes`name, trie.nodes`path
    ensures r.name == n.name && r.path == n.path && r.kids.Keys == n.children.Keys
    ensures forall k | k in r.kids :: n.children[k] in trie.nodes && r.kids[k].name == k && r.kids[k].path == n.children[k].path
    decreases Deeper(trie, n)
  {
    var kids := map k | k in n.children :: (ChildDeeper(trie, n, k); Value(trie, n.children[k]));
    assert forall k | k in kids :: n.children[k] in trie.nodes && kids[k].name == k && kids[k].path == n.children[k].path by {
      forall k | k in kids ensures n.children[k] in trie.nodes && kids[k].name == k && kids[k].path == n.children[k].path {
        ChildDeeper(trie, n, k);
      }
    }
    Fields(n.name, n.path, kids)
  }

  /** The value of the tree node addChildrenFields makes for the trie node
      of value `f`, once filled: named like the trie node, a Field holding
      its path and `gvr`, and, when it has children, marked, green, with its
      expansion toggled and the children below in ascending key order. */
  ghost predicate FieldBuilt(v: NodeValue, f: Fields, gvr: Option<GVR>, mark: string)
    decreases v, 1
  {
    var has := f.kids != map[];
    && v.text == (if has then f.name + mark else f.name)
    && v.expanded == (if has then !NewNodeExpanded else NewNodeExpanded)
    && v.color == (if has then Green else PrimaryText)
    && v.reference.Data? && v.kind == Some(FieldType)
    && v.reference.data.path == f.path && v.reference.data.gvr == gvr
    && KidsBuilt(v.kids, f, gvr, mark)
  }

  /** `vs` are the nodes made for the children of `f`, one per key in
      ascending key order. */
  ghost predicate KidsBuilt(vs: seq<NodeValue>, f: Fields, gvr: Option<GVR>, mark: string)
    decreases vs, 0
  {
    var ks := Ascending(f.kids.Keys);
    && |vs| == |ks|
    && forall i | 0 <= i < |vs| :: ks[i] in f.kids && FieldBuilt(vs[i], f.kids[ks[i]], gvr, mark)
  }

  /** addChildrenFields(parent, children, gvr) for the children of the trie
      node of value `owner`: a parent with children gets `mark` appended,
      turns green and toggles its expansion; then, key by key in ascending
      order, a new Field node named like the child and holding its path and
      `gvr` is appended to the parent and filled in the same way. Nothing
      that existed before changes but the parent. */
  method AddChildrenFields(parent: TreeNode, children: map<string, Fields>, gvr: Option<GVR>, mark: string,
                           ghost owner: Fields)
    returns (ghost added: seq<NodeValue>)
    requires children == owner.kids
    requires parent.Valid()
    modifies parent`text, parent`color, parent`expanded, parent`children, parent`repr
    ensures parent.Valid() && fresh(parent.repr - old(parent.repr))
    ensures parent.reference == old(parent.reference)
    ensures parent.text == if children != map[] then old(parent.text) + mark else old(parent.text)
    ensures parent.color == if children != map[] then Green else old(parent.color)
    ensures parent.expanded == if children != map[] then !old(parent.expanded) else old(parent.expanded)
    ensures parent.Snap().kids == old(parent.Snap().kids) + added
    ensures KidsBuilt(added, owner, gvr, mark)
    decreases owner, 3
  {
    if |children| != 0 {
      MarkParent(parent, mark);
    }
    var keys := SortedKeys(children);
    added := AddAll(parent, children, gvr, mark, owner, keys);
  }

  /** parent.SetText(parent.GetText() + mark), parent.SetColor(Green) and
      parent.SetExpanded(!parent.IsExpanded()). */
  method MarkParent(parent: TreeNode, mark: string)
    requires parent.Valid()
    modifies parent`text, parent`color, parent`expanded
    ensures parent.Valid() && parent.Snap().kids == old(parent.Snap().kids)
    ensures parent.text == old(parent.text) + mark && parent.color == Green && parent.expanded == !old(parent.expanded)
  {
    parent.text := parent.text + mark;
    parent.color := Green;
    parent.expanded := !parent.expanded;
    KidsKept(parent);
  }

  /** `vs` are the nodes made for the children of `f` under the first
      `|vs|` keys of `keys`. */
  ghost predicate BuiltUpTo(vs: seq<NodeValue>, f: Fields, keys: seq<string>, gvr: Option<GVR>, mark: string)
  {
    && |vs| <= |keys|
    && forall j | 0 <= j < |vs| :: keys[j] in f.kids && FieldBuilt(vs[j], f.kids[keys[j]], gvr, mark)
  }

  /** One more node made for the next key. */
  lemma BuiltStep(vs: seq<NodeValue>, v: NodeValue, f: Fields, keys: seq<string>, gvr: Option<GVR>, mark: string)
    requires BuiltUpTo(vs, f, keys, gvr, mark) && |vs| < |keys|
    requires keys[|vs|] in f.kids && FieldBuilt(v, f.kids[keys[|vs|]], gvr, mark)
    ensures BuiltUpTo(vs + [v], f, keys, gvr, mark)
  {
    var ws := vs + [v];
    forall j | 0 <= j < |ws| ensures keys[j] in f.kids && FieldBuilt(ws[j], f.kids[keys[j]], gvr, mark) {
      if j < |vs| {
        assert ws[j] == vs[j];
      }
    }
  }

  /** addChildrenFields' loop over the sorted keys. */
  method AddAll(parent: TreeNode, children: map<string, Fields>, gvr: Option<GVR>, mark: string,
                ghost owner: Fields, keys: seq<string>)
    returns (ghost added: seq<NodeValue>)
    requires children == owner.kids && keys == Ascending(children.Keys)
    requires parent.Valid()
    modifies parent`children, parent`repr
    ensures parent.Valid() && fresh(parent.repr - old(parent.repr))
    ensures parent.Snap().kids == old(parent.Snap().kids) + added
    ensures KidsBuilt(added, owner, gvr, mark)
    decreases owner, 2
  {
    AscendingMembers(children.Keys);
    added := [];
    ghost var before := parent.Snap().kids;
    for i := 0 to |keys|
      invariant parent.Valid() && fresh(parent.repr - old(parent.repr))
      invariant parent.Snap().kids == before + added
      invariant |added| == i
      invariant BuiltUpTo(added, owner, keys, gvr, mark)
    {
      var key := keys[i];
      assert key in children;
      ghost var v := AddOne(parent, children[key], gvr, mark);
      BuiltStep(added, v, owner, keys, gvr, mark);
      AppendOne(before, added, v);
      added := added + [v];
    }
  }

  /** Appending one more value after `added`. */
  lemma AppendOne(before: seq<NodeValue>, added: seq<NodeValue>, v: NodeValue)
    ensures before + (added + [v]) == (before + added) + [v]
  {
  }

  /** One round of addChildrenFields' loop: a new Field node for the trie
      node of value `c`, filled with the nodes for its children, is
      appended to the parent. The source appends the node before filling
      it; nothing reads the tree in between, so the tree comes out the
      same. */
  method AddOne(parent: TreeNode, c: Fields, gvr: Option<GVR>, mark: string) returns (ghost v: NodeValue)
    requires parent.Valid()
    modifies parent`children, parent`repr
    ensures parent.Valid() && fresh(parent.repr - old(parent.repr))
    ensures parent.Snap().kids == old(parent.Snap().kids) + [v]
    ensures FieldBuilt(v, c, gvr, mark)
    decreases c, 5
  {
    var childNode := NewField(c, gvr, mark);
    v := childNode.Snap();
    Attach(parent, childNode);
  }

  /** childNode := tview.NewTreeNode(c.Name) with a Field TreeData holding
      c.Path and `gvr`, filled by addChildrenFields with c's children. */
  method NewField(c: Fields, gvr: Option<GVR>, mark: string) returns (childNode: TreeNode)
    ensures childNode.Valid() && fresh(childNode.repr)
    ensures FieldBuilt(childNode.Snap(), c, gvr, mark)
    decreases c, 4
  {
    childNode := new TreeNode(c.name);
    var data := new TreeData(FieldType, c.path, gvr);
    childNode.reference := Data(data);
    ghost var below := AddChildrenFields(childNode, c.kids, gvr, mark, c);
    assert childNode.Snap().kids == below;
  }

  /** The first dotted part of a string. */
  function Head(s: string): string
  {
    Split(s, '.')[0]
  }

  /** The first dotted parts of `paths`; there are some exactly when there
      are paths. */
  ghost function Heads(paths: seq<string>): (r: set<string>)
    ensures r == {} <==> paths == []
  {
    if paths == [] then {} else Heads(paths[..|paths| - 1]) + {Head(paths[|paths| - 1])}
  }

  /** Paths that all lie below `prefix` all begin with the first part of
      the prefix. */
  lemma {:induction false} HeadsBelow(paths: seq<string>, prefix: string)
    requires forall p | p in paths :: IsPrefix(prefix + ".", p)
    ensures Heads(paths) <= {Head(prefix)}
    decreases |paths|
  {
    if paths != [] {
      var init := paths[..|paths| - 1];
      assert forall p | p in init :: p in paths;
      HeadsBelow(init, prefix);
      SplitFirstPart(prefix, paths[|paths| - 1]);
    }
  }

  /** The key `k` follows the keys `base` on the dotted parts of some path
      of `ps`. */
  ghost predicate Continues(base: seq<string>, k: string, ps: set<string>)
  {
    exists p | p in ps :: base + [k] <= Split(p, '.')
  }

  /** `f` is the value of the node reached by the keys `base` in the trie
      of the paths `ps`: its keys are exactly the parts that follow `base`
      on some path, and the child under each key is named by it, holds the
      dotted path of `base` and the key, and is spelled in the same way. */
  ghost predicate Spells(f: Fields, base: seq<string>, ps: set<string>)
    decreases f
  {
    && (forall k :: k in f.kids <==> Continues(base, k, ps))
    && (forall k | k in f.kids ::
          && f.kids[k].name == k && f.kids[k].path == Join(base + [k], ".")
          && Spells(f.kids[k], base + [k], ps))
  }

  /** The paths determine the trie: two values spelled by the same paths
      below the same keys, with the same name and path, are equal. */
  lemma {:induction false} SpellsUnique(a: Fields, b: Fields, base: seq<string>, ps: set<string>)
    requires Spells(a, base, ps) && Spells(b, base, ps)
    requires a.name == b.name && a.path == b.path
    ensures a == b
    decreases a
  {
    assert a.kids.Keys == b.kids.Keys;
    forall k | k in a.kids ensures a.kids[k] == b.kids[k] {
      SpellsUnique(a.kids[k], b.kids[k], base + [k], ps);
    }
    assert a.kids == b.kids;
  }

  /** The value of each node of a trie spelled by `paths` is spelled by
      them below the node's keys. */
  lemma {:induction false} ValueSpells(trie: ResourceFieldsNode, n: ResourceFieldsNode, paths: seq<string>)
    requires trie.Valid() && n in trie.nodes && trie.Spelled(paths)
    ensures Spells(Value(trie, n), n.chain, set p | p in paths)
    decreases Deeper(trie, n), 1
  {
    var f := Value(trie, n);
    var ps := set p | p in paths;
    forall k | k in f.kids
      ensures f.kids[k].name == k && f.kids[k].path == Join(n.chain + [k], ".")
      ensures Spells(f.kids[k], n.chain + [k], ps)
      ensures Continues(n.chain, k, ps)
    {
      ValueKid(trie, n, paths, k);
    }
    forall k | Continues(n.chain, k, ps) ensures k in f.kids {
      ContinuedChild(trie, n, paths, k);
    }
    SpellsIntro(f, n.chain, ps);
  }

  /** The child of `n` under `k` is named by it, holds the dotted path of
      its keys, is spelled below them, and `k` continues `n`'s keys on some
      path. */
  lemma {:induction false} ValueKid(trie: ResourceFieldsNode, n: ResourceFieldsNode, paths: seq<string>, k: string)
    requires trie.Valid() && n in trie.nodes && trie.Spelled(paths) && k in n.children
    ensures var c := Value(trie, n).kids[k];
      && c.name == k && c.path == Join(n.chain + [k], ".")
      && Spells(c, n.chain + [k], set p | p in paths)
      && Continues(n.chain, k, set p | p in paths)
    decreases Deeper(trie, n), 0
  {
    ChildDeeper(trie, n, k);
    var c := n.children[k];
    assert trie.ChildOk(n, k);
    assert Value(trie, n).kids[k] == Value(trie, c);
    ValueSpells(trie, c, paths);
    assert trie.OnSomePath(c.chain, paths);
    var p :| p in paths && trie.Begins(c.chain, p);
    var ps := set p | p in paths;
    assert p in ps && c.chain == n.chain + [k];
    assert Continues(n.chain, k, ps);
  }

  /** A key that continues `n`'s keys on some path is one of its children. */
  lemma ContinuedChild(trie: ResourceFieldsNode, n: ResourceFieldsNode, paths: seq<string>, k: string)
    requires trie.Valid() && n in trie.nodes && trie.Spelled(paths)
    requires Continues(n.chain, k, set p | p in paths)
    ensures k in n.children
  {
    var cs := n.chain + [k];
    var p :| p in paths && cs <= Split(p, '.');
    assert trie.Follow(Split(p, '.')) != null;
    trie.FollowPrefix(Split(p, '.'), |cs|);
    PrefixTake(cs, Split(p, '.'));
    assert cs[..|cs| - 1] == n.chain && cs[|cs| - 1] == k;
    assert trie.Follow(n.chain) == n;
  }

  /** Spells, one level: keys exactly the continuations, children named,
      pathed and spelled below. */
  lemma SpellsIntro(f: Fields, base: seq<string>, ps: set<string>)
    requires forall k | k in f.kids :: Continues(base, k, ps)
    requires forall k | Continues(base, k, ps) :: k in f.kids
    requires forall k | k in f.kids ::
      && f.kids[k].name == k && f.kids[k].path == Join(base + [k], ".")
      && Spells(f.kids[k], base + [k], ps)
    ensures Spells(f, base, ps)
  {
  }

  /** A prefix is the slice of its length. */
  lemma PrefixTake(cs: seq<string>, s: seq<string>)
    requires cs <= s
    ensures s[..|cs|] == cs
  {
  }

  /** The first parts of `paths` are exactly the parts that begin some
      path. */
  lemma {:induction false} HeadsMembers(paths: seq<string>)
    ensures forall k :: k in Heads(paths) <==> exists p | p in paths :: Head(p) == k
    decreases |paths|
  {
    if paths != [] {
      var init := paths[..|paths| - 1];
      HeadsMembers(init);
      assert forall p | p in init :: p in paths;
      assert paths == init + [paths[|paths| - 1]];
    }
  }

  /** At the root, the keys of a spelled value are the first parts of the
      paths, and each child holds its key as its name and path. */
  lemma SpellsHeads(top: Fields, paths: seq<string>)
    requires Spells(top, [], set p | p in paths)
    ensures top.kids.Keys == Heads(paths)
    ensures forall k | k in top.kids :: top.kids[k].name == k && top.kids[k].path == k
  {
    HeadsMembers(paths);
    forall k ensures k in top.kids <==> k in Heads(paths) {
      if k in top.kids {
        var p :| p in paths && [] + [k] <= Split(p, '.');
      }
      if k in Heads(paths) {
        var p :| p in paths && Head(p) == k;
        assert [] + [k] <= Split(p, '.');
      }
    }
    forall k | k in top.kids ensures top.kids[k].path == k {
      assert [] + [k] == [k];
    }
  }

  /** The trie built from `paths` by the catalog loop: a root named "root"
      and AddPath of every path in turn, which leaves it spelled by the
      paths. */
  method BuildTrie(paths: seq<string>) returns (trie: ResourceFieldsNode)
    ensures trie.Valid() && fresh(trie.nodes) && trie.name == "root"
    ensures trie.Spelled(paths)
  {
    trie := new ResourceFieldsNode.Root("root");
    trie.SpelledEmpty();
    for i := 0 to |paths|
      invariant trie.Valid()
      invariant fresh(trie.nodes)
      invariant trie.name == "root"
      invariant trie.path == ""
      invariant trie.Spelled(paths[..i])
    {
      ghost var olds := trie.nodes;
      AddSpelled(trie, paths[..i], paths[i]);
      assert trie.nodes == olds + (trie.nodes - olds);
      assert paths[..i + 1] == paths[..i] + [paths[i]];
    }
    assert paths[..|paths|] == paths;
  }

  /** trie.AddPath(p) on the trie spelled by `ps` leaves it spelled by
      `ps + [p]`; the root keeps its name and path. */
  method AddSpelled(trie: ResourceFieldsNode, ghost ps: seq<string>, p: string)
    requires trie.Valid() && trie.Spelled(ps) && trie.path == ""
    modifies trie.nodes
    ensures trie.Valid() && trie.Spelled(ps + [p])
    ensures trie.name == old(trie.name) && trie.path == ""
    ensures old(trie.nodes) <= trie.nodes && fresh(trie.nodes - old(trie.nodes))
  {
    ghost var line := AddWalked(trie, p);
    assert (ps + [p])[..|ps|] == ps && (ps + [p])[|ps|] == p;
    trie.SpelledStep(ps + [p], line);
  }

  /** trie.AddPath(p), seen through the walk it makes. */
  method AddWalked(trie: ResourceFieldsNode, p: string) returns (ghost line: seq<ResourceFieldsNode>)
    requires trie.Valid()
    modifies trie.nodes
    ensures trie.Valid() && trie.Walked(p, line)
    ensures trie.name == old(trie.name) && fresh(trie.nodes - old(trie.nodes))
  {
    line := trie.AddPath(p);
    trie.AddedWalked(p, line);
  }

  /** The trie built from `paths`, read as a value: the root, spelled by
      the paths, so one child per first part of a path, named by it and
      with it as its path. By SpellsUnique it is the only such value. */
  method TrieOf(paths: seq<string>) returns (top: Fields)
    ensures top.name == "root" && top.path == ""
    ensures Spells(top, [], set p | p in paths)
    ensures top.kids.Keys == Heads(paths)
    ensures forall k | k in top.kids :: top.kids[k].name == k && top.kids[k].path == k
  {
    var trie := BuildTrie(paths);
    top := Value(trie, trie);
    ValueSpells(trie, trie, paths);
    SpellsHeads(top, paths);
  }

  /** When every path lies below `prefix`, the first part of each is the
      first part of the prefix. */
  lemma PrefixedHead(paths: seq<string>, prefix: string, key: string)
    requires key in Heads(paths)
    ensures (forall p | p in paths :: IsPrefix(prefix + ".", p)) ==> key == Head(prefix)
  {
    if forall p | p in paths :: IsPrefix(prefix + ".", p) {
      HeadsBelow(paths, prefix);
    }
  }

  /** tmpNode := tview.NewTreeNode("tmp") and addChildrenFields(tmpNode,
      trie.Children, gvr), for the trie of value `top`: below tmp, the
      nodes for the trie's children in ascending key order. */
  method FillTmp(top: Fields, gvr: Option<GVR>, mark: string) returns (tmpNode: TreeNode)
    ensures tmpNode.Valid() && fresh(tmpNode.repr)
    ensures KidsBuilt(tmpNode.Snap().kids, top, gvr, mark)
  {
    tmpNode := new TreeNode("tmp");
    ghost var added := AddChildrenFields(tmpNode, top.kids, gvr, mark, top);
  }

  /** first.SetText(kind + " (" + name + ")") and its reference replaced by
      a TreeData of type Resource with the same path and `gvr`; the node
      keeps its flags, colour and children. */
  method Relabel(first: TreeNode, r: APIResource, gvr: Option<GVR>)
    requires first.Valid() && first.reference.Data?
    modifies first`text, first`reference
    ensures first.Valid() && first.Snap().kids == old(first.Snap().kids)
    ensures first.text == r.kind + " (" + r.name + ")"
    ensures first.reference.Data? && first.reference.data.nodeType == ResourceType
    ensures first.reference.data.path == old(first.reference.data.path) && first.reference.data.gvr == gvr
  {
    var data := first.reference.data;
    first.text := r.kind + " (" + r.name + ")";
    var retyped := new TreeData(ResourceType, data.path, gvr);
    first.reference := Data(retyped);
    KidsKept(first);
  }

  /** `node` is the resource node for the trie node of value `fields`:
      labelled "Kind (name)", a Resource TreeData holding the node's path
      and `gvr`, and otherwise as addChildrenFields built it. */
  ghost predicate ResourceBuilt(node: TreeNode, r: APIResource, fields: Fields, gvr: Option<GVR>, mark: string)
    reads node, node.repr
  {
    var has := fields.kids != map[];
    && node.Valid()
    && node.text == r.kind + " (" + r.name + ")"
    && node.reference.Data? && node.reference.data.nodeType == ResourceType
    && node.reference.data.gvr == gvr && node.reference.data.path == fields.path
    && node.expanded == (if has then !NewNodeExpanded else NewNodeExpanded)
    && node.color == (if has then Green else PrimaryText)
    && KidsBuilt(node.Snap().kids, fields, gvr, mark)
  }

  /** first := tmpNode.GetChildren()[0], relabelled as the resource node;
      with no children the index panics and `node` is null. The first child
      is the one for the least key. */
  method FirstAsResource(tmpNode: TreeNode, top: Fields, r: APIResource, gvr: Option<GVR>, mark: string)
    returns (node: TreeNode?, ghost key: string)
    requires tmpNode.Valid() && KidsBuilt(tmpNode.Snap().kids, top, gvr, mark)
    modifies tmpNode.repr
    ensures node == null <==> top.kids == map[]
    ensures node != null ==>
      && node.repr <= old(tmpNode.repr)
      && key in top.kids && key == Ascending(top.kids.Keys)[0]
      && ResourceBuilt(node, r, top.kids[key], gvr, mark)
  {
    AscendingMembers(top.kids.Keys);
    ghost var ks := Ascending(top.kids.Keys);
    if |tmpNode.children| == 0 {
      assert ks == [];
      return null, "";
    }
    var first := tmpNode.children[0];
    key := ks[0];
    assert key in top.kids;
    assert FieldBuilt(first.Snap(), top.kids[key], gvr, mark);
    Relabel(first, r, gvr);
    node := first;
  }

  /** The catalog loop's fields part for one resource with field paths
      `paths`: the paths go into a new trie, a temporary node "tmp"
      receives the trie's children, and tmp's first child becomes the
      resource node, its text set to "Kind (name)" and its TreeData retyped
      as a resource (with `gvr`, which RunApp sets and main.go does not
      have). With no paths tmp has no child and `tmpNode.GetChildren()[0]`
      panics: then `node` is null. Otherwise the resource node is the copy
      of the trie's child under the least first part of a path, whose value
      is the one the paths spell below that part. When every path lies
      below `prefix` (the lower-cased resource name, as getPaths gives
      them), that part is the first part of the prefix. */
  method ResourceNode(r: APIResource, paths: seq<string>, gvr: Option<GVR>, mark: string, ghost prefix: string)
    returns (node: TreeNode?, ghost fields: Fields)
    ensures node == null <==> paths == []
    ensures node != null ==> fresh(node.repr) && ResourceBuilt(node, r, fields, gvr, mark)
    ensures node != null ==>
      && fields.name == Ascending(Heads(paths))[0] && fields.path == fields.name
      && Spells(fields, [fields.name], set p | p in paths)
    ensures node != null && (forall p | p in paths :: IsPrefix(prefix + ".", p)) ==>
      fields.name == Head(prefix)
  {
    var top := TrieOf(paths);
    var tmpNode := FillTmp(top, gvr, mark);
    ghost var key;
    node, key := FirstAsResource(tmpNode, top, r, gvr, mark);
    fields := Fields("", "", map[]);
    if node != null {
      fields := top.kids[key];
      assert [] + [key] == [key];
      PrefixedHead(paths, prefix, key);
    }
  }
}
