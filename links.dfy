/** internal/apidocs/links.go: a map from each node to its parent, filled by
    a walk over the tree, used to move to the closest parent. */
module TreeLinks {
  import opened TView

  /** The links FillLinks(root) leaves in `m`: each child of root is linked
      to root and then the links below it are filled, child after child, so
      a later link to a shared node overwrites an earlier one. */
  ghost function Fill(m: map<TreeNode, TreeNode>, root: TreeNode): map<TreeNode, TreeNode>
    requires root.Valid()
    reads root`children, root`repr, root.repr`children, root.repr`repr
    decreases root.repr, 1
  {
    FillFrom(m, root, 0)
  }

  /** The links once the children of root from the `i`th on are done. */
  ghost function FillFrom(m: map<TreeNode, TreeNode>, root: TreeNode, i: nat): map<TreeNode, TreeNode>
    requires root.Valid() && i <= |root.children|
    reads root`children, root`repr, root.repr`children, root.repr`repr
    decreases root.repr, 0, |root.children| - i
  {
    if i == |root.children| then m
    else
      var c := root.children[i];
      FillFrom(Fill(m[c := root], c), root, i + 1)
  }

  /** The nodes strictly below `root`. */
  ghost function Below(root: TreeNode): set<TreeNode>
    requires root.Valid()
    reads root`children, root`repr, root.repr`children, root.repr`repr
  {
    NodesOf(root.children, |root.children|, root.repr)
  }

  /** Compared with `before`, exactly the nodes `done` below `root` are
      linked, each to a node of root's subtree that has it as a child, and
      every other link is as it was. */
  ghost predicate Linked(m: map<TreeNode, TreeNode>, root: TreeNode, done: set<TreeNode>, before: map<TreeNode, TreeNode>)
    requires root.Valid()
    reads root`children, root`repr, root.repr`children, root.repr`repr
  {
    && done <= root.Nodes() && root !in done
    && m.Keys == before.Keys + done
    && (forall c | c in done :: m[c] in root.Nodes() && c in m[c].children)
    && (forall c | c in before && c !in done :: m[c] == before[c])
  }

  /** FillLinks(root) links every node below `root`, and nothing else, to
      a node of root's subtree that has it as a child; in a tree that is
      its parent. `root` and the nodes outside its subtree keep the links
      they had. */
  lemma {:induction false} FillLinked(m: map<TreeNode, TreeNode>, root: TreeNode)
    requires root.Valid()
    ensures Linked(Fill(m, root), root, Below(root), m)
    decreases root.repr, 1
  {
    NodesOfAvoid(root.children, |root.children|, root.repr, root);
    FillFromLinked(m, root, 0, m);
  }

  lemma {:induction false} FillFromLinked(m: map<TreeNode, TreeNode>, root: TreeNode, i: nat, before: map<TreeNode, TreeNode>)
    requires root.Valid() && i <= |root.children|
    requires root !in Below(root)
    requires Linked(m, root, NodesOf(root.children, i, root.repr), before)
    ensures Linked(FillFrom(m, root, i), root, Below(root), before)
    decreases root.repr, 0, |root.children| - i
  {
    if i < |root.children| {
      var c := root.children[i];
      FillLinked(m[c := root], c);
      FillStep(m, root, i, before);
      FillFromLinked(Fill(m[c := root], c), root, i + 1, before);
    }
  }

  /** One child more: after linking the `i`th child to `root` and filling
      below it, that child's nodes are linked too. */
  lemma FillStep(m: map<TreeNode, TreeNode>, root: TreeNode, i: nat, before: map<TreeNode, TreeNode>)
    requires root.Valid() && i < |root.children|
    requires Linked(m, root, NodesOf(root.children, i, root.repr), before)
    requires Linked(Fill(m[root.children[i] := root], root.children[i]), root.children[i], Below(root.children[i]), m[root.children[i] := root])
    ensures Linked(Fill(m[root.children[i] := root], root.children[i]), root, NodesOf(root.children, i + 1, root.repr), before)
  {
    var c := root.children[i];
    var m1 := m[c := root];
    var f := Fill(m1, c);
    var done := NodesOf(root.children, i, root.repr);
    var done' := NodesOf(root.children, i + 1, root.repr);
    assert done' == done + c.Nodes();
    assert c.Nodes() <= root.Nodes();
    assert c !in Below(c);
    assert done' <= root.Nodes() && root !in done';
    assert f.Keys == before.Keys + done';
    forall x | x in before && x !in done' ensures f[x] == before[x] {
      assert f[x] == m1[x];
    }
    forall x | x in done' ensures f[x] in root.Nodes() && x in f[x].children {
      if x !in Below(c) && x != c {
        assert f[x] == m[x];
      }
    }
  }

  /** Every link goes from a node to a node that has it as a child. */
  ghost predicate ParentLinks(m: map<TreeNode, TreeNode>)
    reads m.Values`children
  {
    forall k | k in m :: k in m[k].children
  }

  /** Filled from nothing, the links are exactly the nodes below the root,
      each linked to a node that has it as a child. */
  lemma FillParents(root: TreeNode)
    requires root.Valid()
    ensures Fill(map[], root).Keys == Below(root) && ParentLinks(Fill(map[], root))
  {
    FillLinked(map[], root);
  }

  class TreeLinks {
    /** key: child, value: parent. */
    var parentMap: map<TreeNode, TreeNode>

    /** NewTreeLinks: no links yet. */
    constructor ()
      ensures parentMap == map[]
    {
      parentMap := map[];
    }

    /** FillLinks(root). */
    method FillLinks(root: TreeNode)
      requires root.Valid()
      modifies this
      ensures parentMap == Fill(old(parentMap), root)
      decreases root.repr, 1
    {
      ghost var target := Fill(parentMap, root);
      for i := 0 to |root.children|
        invariant FillFrom(parentMap, root, i) == target
      {
        LinkChild(root, i, target);
      }
    }

    /** One round of FillLinks' loop: link the `i`th child to `root`, then
        fill the links below that child. */
    method LinkChild(root: TreeNode, i: nat, ghost target: map<TreeNode, TreeNode>)
      requires root.Valid() && i < |root.children|
      requires FillFrom(parentMap, root, i) == target
      modifies this
      ensures FillFrom(parentMap, root, i + 1) == target
      decreases root.repr, 0
    {
      var c := root.children[i];
      parentMap := parentMap[c := root];
      FillLinks(c);
    }
  }
}
