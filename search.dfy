/** internal/apidocs/uisearch.go: buildFilteredTree makes a pruned copy of
    the tree that keeps the Resource and Field nodes whose lower-cased text
    contains the term and every node above a kept one.

    The copy is specified on values: Filter takes the value of a subtree
    and gives the value of its copy, or None when the subtree is dropped. */
module Search {
  import opened Kube
  import opened GoStrings
  import opened TView
  import TreeDataOps

  /** A node matches by itself when it is a Resource or a Field and its
      lower-cased text contains the term. */
  predicate SelfMatch(v: NodeValue, term: string)
  {
    v.kind.Some? && (v.kind.value == ResourceType || v.kind.value == FieldType) && Contains(ToLower(v.text), term)
  }

  /** The copy of a subtree: a node without TreeData is dropped with its
      subtree; otherwise the node is kept when it matches by itself or some
      child is kept, as a new expanded node with the same text and
      reference, the default colour, and the kept children. */
  function Filter(v: NodeValue, term: string): Option<NodeValue>
    decreases v
  {
    if v.kind.None? then None
    else
      var kids := FilterAll(v.kids, term);
      if SelfMatch(v, term) || kids != [] then Some(NodeValue(v.text, true, PrimaryText, v.reference, v.kind, kids))
      else None
  }

  /** The copies of the kept subtrees of `vs`, in order. */
  function FilterAll(vs: seq<NodeValue>, term: string): seq<NodeValue>
    decreases vs
  {
    if |vs| == 0 then []
    else
      var rest := FilterAll(vs[..|vs| - 1], term);
      match Filter(vs[|vs| - 1], term)
      case Some(k) => rest + [k]
      case None => rest
  }

  /** The positions of the kept subtrees of `vs`, in order. */
  function KeptAt(vs: seq<NodeValue>, term: string): seq<nat>
  {
    if |vs| == 0 then []
    else
      var rest := KeptAt(vs[..|vs| - 1], term);
      if Filter(vs[|vs| - 1], term).Some? then rest + [|vs| - 1] else rest
  }

  /** Every node of a value is expanded. */
  predicate AllExpanded(v: NodeValue)
  {
    v.expanded && forall i | 0 <= i < |v.kids| :: AllExpanded(v.kids[i])
  }

  /** Nothing of `vs` is kept exactly when no subtree of it is kept. */
  lemma {:induction false} FilterAllEmpty(vs: seq<NodeValue>, term: string)
    ensures FilterAll(vs, term) == [] <==> forall i | 0 <= i < |vs| :: Filter(vs[i], term).None?
    decreases |vs|
  {
    if |vs| > 0 {
      var init := vs[..|vs| - 1];
      FilterAllEmpty(init, term);
      assert forall i | 0 <= i < |init| :: init[i] == vs[i];
    }
  }

  /** A subtree is kept exactly when its node holds TreeData and matches by
      itself or has a kept child; the Root and Group nodes are kept only
      through their children. */
  lemma FilterKept(v: NodeValue, term: string)
    ensures Filter(v, term).Some? <==>
      v.kind.Some? && (SelfMatch(v, term) || exists i :: 0 <= i < |v.kids| && Filter(v.kids[i], term).Some?)
    ensures v.kind == Some(RootType) || v.kind == Some(GroupType) ==>
      (Filter(v, term).Some? <==> exists i :: 0 <= i < |v.kids| && Filter(v.kids[i], term).Some?)
  {
    FilterAllEmpty(v.kids, term);
  }

  /** The kept children are copies of the children at the positions
      KeptAt gives, which rise strictly and name every kept child: the
      copy keeps exactly the kept children, in their original order. */
  lemma {:induction false} FilterAllOrder(vs: seq<NodeValue>, term: string)
    ensures |KeptAt(vs, term)| == |FilterAll(vs, term)|
    ensures forall k | 0 <= k < |KeptAt(vs, term)| ::
      KeptAt(vs, term)[k] < |vs| && Filter(vs[KeptAt(vs, term)[k]], term) == Some(FilterAll(vs, term)[k])
    ensures forall k, l | 0 <= k < l < |KeptAt(vs, term)| :: KeptAt(vs, term)[k] < KeptAt(vs, term)[l]
    ensures forall i | 0 <= i < |vs| :: Filter(vs[i], term).Some? <==> i in KeptAt(vs, term)
    decreases |vs|
  {
    if |vs| > 0 {
      var init := vs[..|vs| - 1];
      FilterAllOrder(init, term);
      assert forall i | 0 <= i < |init| :: init[i] == vs[i];
    }
  }

  /** Every node of a copy is expanded. */
  lemma {:induction false} FilterExpanded(v: NodeValue, term: string)
    requires Filter(v, term).Some?
    ensures AllExpanded(Filter(v, term).value)
    decreases v, 1
  {
    FilterAllExpanded(v.kids, term);
  }

  lemma {:induction false} FilterAllExpanded(vs: seq<NodeValue>, term: string)
    ensures forall i | 0 <= i < |FilterAll(vs, term)| :: AllExpanded(FilterAll(vs, term)[i])
    decreases vs, 0
  {
    if |vs| > 0 {
      FilterAllExpanded(vs[..|vs| - 1], term);
      if Filter(vs[|vs| - 1], term).Some? {
        FilterExpanded(vs[|vs| - 1], term);
      }
    }
  }

  /** Filtering a copy again with the same term gives it back: the copy
      holds nothing the filter would drop. */
  lemma {:induction false} FilterFixed(v: NodeValue, term: string)
    requires Filter(v, term).Some?
    ensures Filter(Filter(v, term).value, term) == Filter(v, term)
    decreases v, 1
  {
    FilterAllFixed(v.kids, term);
  }

  lemma {:induction false} FilterAllFixed(vs: seq<NodeValue>, term: string)
    ensures FilterAll(FilterAll(vs, term), term) == FilterAll(vs, term)
    decreases vs, 0
  {
    if |vs| > 0 {
      var rest := FilterAll(vs[..|vs| - 1], term);
      FilterAllFixed(vs[..|vs| - 1], term);
      if Filter(vs[|vs| - 1], term).Some? {
        var k := Filter(vs[|vs| - 1], term).value;
        FilterFixed(vs[|vs| - 1], term);
        assert (rest + [k])[..|rest|] == rest;
      }
    }
  }

  /** buildFilteredTree(node, term): nil for a nil node; otherwise nil
      exactly when the subtree is dropped, and else a tree of new nodes
      whose value is the copy. The source tree is not changed. */
  method BuildFilteredTree(node: TreeNode?, term: string) returns (r: TreeNode?)
    requires node != null ==> node.Valid()
    ensures node == null ==> r == null
    ensures node != null ==> (r == null <==> Filter(old(node.Snap()), term).None?)
    ensures r != null ==> node != null && fresh(r.repr) && r.Valid() && r.Snap() == Filter(old(node.Snap()), term).value
    decreases if node == null then {} else node.repr
  {
    if node == null {
      return null;
    }
    var data := TreeDataOps.ExtractTreeData(node);
    if data.Err? {
      return null;
    }
    ghost var v := node.Snap();
    assert v.kind == Some(data.value.nodeType) && v.text == node.text && v.reference == node.reference;
    var shouldHighlight := TreeDataOps.IsNodeType(data.value, [ResourceType, FieldType]);
    var matched := Contains(ToLower(node.text), term) && shouldHighlight;
    assert matched == SelfMatch(v, term);
    var matching, kept, foot := KeptChildren(node, term);
    matched := matched || |matching| > 0;
    assert Filter(v, term) == if matched then Some(NodeValue(v.text, true, PrimaryText, v.reference, v.kind, kept)) else None;
    if matched {
      r := Clone(node, matching, kept, foot);
    } else {
      r := null;
    }
  }

  /** `ns` are valid subtrees inside `foot` whose values are `vs`. */
  ghost predicate Copies(ns: seq<TreeNode>, vs: seq<NodeValue>, foot: set<TreeNode>)
    reads foot
  {
    && |ns| == |vs|
    && forall j | 0 <= j < |ns| :: ns[j] in foot && ns[j].repr <= foot && ns[j].Valid() && ns[j].Snap() == vs[j]
  }

  lemma CopiesGrow(ns: seq<TreeNode>, vs: seq<NodeValue>, foot: set<TreeNode>, n: TreeNode)
    requires Copies(ns, vs, foot) && n.Valid()
    ensures Copies(ns + [n], vs + [n.Snap()], foot + n.repr)
  {
    forall j | 0 <= j < |ns|
      ensures (ns + [n])[j].Snap() == (vs + [n.Snap()])[j]
    {
    }
  }

  /** The loop of buildFilteredTree over the children: the filtered copies
      of the kept children, in order, all made of new nodes. */
  method KeptChildren(node: TreeNode, term: string) returns (matching: seq<TreeNode>, ghost kept: seq<NodeValue>, ghost foot: set<TreeNode>)
    requires node.Valid()
    ensures kept == FilterAll(old(node.Snap()).kids, term)
    ensures Copies(matching, kept, foot) && fresh(foot)
    decreases node.repr, 0
  {
    ghost var v := node.Snap();
    matching, kept, foot := [], [], {};
    for i := 0 to |node.children|
      invariant kept == FilterAll(v.kids[..i], term)
      invariant Copies(matching, kept, foot) && fresh(foot)
    {
      var child := node.children[i];
      assert v.kids[..i + 1][..i] == v.kids[..i];
      assert v.kids[i] == old(child.Snap());
      var filteredChild := BuildFilteredTree(child, term);
      if filteredChild != null {
        CopiesGrow(matching, kept, foot, filteredChild);
        matching := matching + [filteredChild];
        kept := kept + [filteredChild.Snap()];
        foot := foot + filteredChild.repr;
      }
    }
    assert v.kids[..|node.children|] == v.kids;
  }

  /** The new node of buildFilteredTree: the same text and reference,
      expanded, with the kept copies appended as children. */
  method Clone(node: TreeNode, matching: seq<TreeNode>, ghost kept: seq<NodeValue>, ghost foot: set<TreeNode>) returns (r: TreeNode)
    requires Copies(matching, kept, foot)
    ensures fresh(r) && r.repr <= foot + {r}
    ensures r.Valid() && r.Snap() == NodeValue(node.text, true, PrimaryText, node.reference, KindOf(node.reference), kept)
  {
    r := new TreeNode(node.text);
    r.reference := node.reference;
    r.expanded := true;
    for i := 0 to |matching|
      invariant r.children == matching[..i] && r.repr <= foot + {r}
      invariant r.text == node.text && r.reference == node.reference && r.expanded && r.color == PrimaryText
      invariant forall j | 0 <= j < i :: matching[j].repr <= r.repr
      invariant r.Valid()
    {
      r.AddChild(matching[i]);
      r.repr := r.repr + matching[i].repr;
    }
    assert r.children == matching;
    assert forall j | 0 <= j < |matching| :: r !in matching[j].repr;
    ghost var snaps := SnapAll(r.children, r.repr);
    assert |snaps| == |kept| && forall j | 0 <= j < |kept| :: snaps[j] == kept[j];
  }
}
