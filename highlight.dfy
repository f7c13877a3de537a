/** pkg/apidocs/uisearch.go: the older search colours matching nodes of
    the tree in place instead of building a filtered copy. */
module Highlight {
  import opened GoStrings
  import opened TView

  /** The nodes a call on `node` may recolour. */
  ghost function Foot(node: TreeNode?): set<TreeNode>
    reads node
  {
    if node == null then {} else node.repr
  }

  /** The lower-cased text contains the (already lower-cased) term. */
  predicate Hit(text: string, term: string)
  {
    Contains(ToLower(text), term)
  }

  /** The colour of a node after a search: red when it was reached and
      matches, else its colour before. */
  function Shade(reached: bool, text: string, term: string, before: Color): Color
  {
    Tint(reached, Hit(text, term), before)
  }

  /** Red for a node reached that matches, else the colour it had. */
  function Tint(reached: bool, matched: bool, before: Color): Color
  {
    if reached && matched then Red else before
  }

  /** searchAndHighlight(node, term): every node reachable from `node`
      whose lower-cased text contains the term turns red, whatever its
      type; every other node keeps its colour. Only colours change. */
  method SearchAndHighlight(node: TreeNode?, term: string)
    requires node != null ==> node.Valid()
    modifies Foot(node)`color
    ensures node != null ==> forall n | n in node.repr ::
      n.color == Shade(n in node.Nodes(), n.text, term, old(n.color))
  {
    Recolor(node, text => Hit(text, term));
  }

  /** The recursion of searchAndHighlight, with the match test on a node's
      text given as `hit`: a node turns red on a match and otherwise is set
      back to its own colour, then its children are searched in order. */
  method Recolor(node: TreeNode?, hit: string -> bool)
    requires node != null ==> node.Valid()
    modifies Foot(node)`color
    ensures node != null ==> forall n | n in node.repr ::
      n.color == Tint(n in node.Nodes(), hit(n.text), old(n.color))
    decreases Foot(node)
  {
    if node == null {
      return;
    }
    var oldColor := node.color;
    node.color := if hit(node.text) then Red else oldColor;
    for i := 0 to |node.children|
      invariant forall n | n in node.repr ::
        n.color == Tint(n == node || n in NodesOf(node.children, i, node.repr), hit(n.text), old(n.color))
    {
      var child := node.children[i];
      Recolor(child, hit);
    }
  }

  /** resetNodeColors(node): every node reachable from `node` turns white;
      nothing else changes. */
  method ResetNodeColors(node: TreeNode?)
    requires node != null ==> node.Valid()
    modifies Foot(node)`color
    ensures node != null ==> forall n | n in node.repr ::
      n.color == if n in node.Nodes() then White else old(n.color)
    decreases Foot(node)
  {
    if node == null {
      return;
    }
    node.color := White;
    for i := 0 to |node.children|
      invariant forall n | n in node.repr ::
        n.color == if n == node || n in NodesOf(node.children, i, node.repr) then White else old(n.color)
    {
      var child := node.children[i];
      ResetNodeColors(child);
    }
  }

  /** The value of a tree after resetNodeColors: the same tree with every
      node white. */
  function Whitened(v: NodeValue): (r: NodeValue)
    ensures r.text == v.text && r.expanded == v.expanded && r.reference == v.reference && r.kind == v.kind
    ensures r.color == White && |r.kids| == |v.kids|
    decreases v
  {
    v.(color := White, kids := seq(|v.kids|, i requires 0 <= i < |v.kids| => Whitened(v.kids[i])))
  }

  /** Whitening a whitened tree changes nothing. */
  lemma {:induction false} WhitenedTwice(v: NodeValue)
    ensures Whitened(Whitened(v)) == Whitened(v)
    decreases v
  {
    var w := Whitened(v);
    forall i | 0 <= i < |v.kids| ensures Whitened(w.kids[i]) == w.kids[i] {
      WhitenedTwice(v.kids[i]);
    }
    assert Whitened(w).kids == w.kids;
  }

  /** A subtree of which only colours changed, every node reachable now
      being white, has the whitened value it had. */
  twostate lemma {:induction false} WhitenedSnap(n: TreeNode)
    requires old(n.Valid())
    requires forall m | m in old(n.repr) ::
      && m.children == old(m.children) && m.repr == old(m.repr) && m.text == old(m.text)
      && m.expanded == old(m.expanded) && m.reference == old(m.reference)
    requires forall m | m in old(n.Nodes()) :: m.color == White
    ensures n.Valid() && n.Snap() == Whitened(old(n.Snap()))
    decreases n.repr
  {
    forall i | 0 <= i < |n.children|
      ensures n.children[i].Valid() && n.children[i].Snap() == Whitened(old(n.children[i].Snap()))
    {
      var c := n.children[i];
      assert old(c.repr) <= old(n.repr) && old(c.Nodes()) <= old(n.Nodes());
      WhitenedSnap(c);
    }
    assert n.Snap().kids == Whitened(old(n.Snap())).kids;
  }

  /** resetNodeColors on a whole tree, stated on its value: the tree
      comes out whitened. */
  method ResetTree(node: TreeNode)
    requires node.Valid()
    modifies node.repr`color
    ensures node.Valid() && node.Snap() == Whitened(old(node.Snap()))
  {
    label before:
    ResetNodeColors(node);
    WhitenedSnap@before(node);
  }

  /** The colours after highlighting `term` from `root`: with an empty
      term every node reachable from the root is white; otherwise those
      whose lower-cased text contains the lower-cased term are red and the
      rest keep their colour. Nodes not reachable keep theirs. */
  twostate predicate Highlighted(root: TreeNode, term: string)
    reads root`children, root`repr, root.repr
  {
    root.Valid() && root.repr == old(root.repr) &&
    forall n | n in root.repr ::
      n.color == if n !in root.Nodes() then old(n.color)
                 else if term == "" then White
                 else Shade(true, n.text, ToLower(term), old(n.color))
  }

  /** highlightMatchingNodes(root, term): an empty term resets the colours
      of the whole tree; any other term is lower-cased and highlighted.
      The shape, texts and flags of the tree stay as they were. */
  method HighlightMatchingNodes(root: TreeNode?, term: string)
    requires root != null ==> root.Valid()
    modifies Foot(root)`color
    ensures root != null ==> Highlighted(root, term)
    ensures root != null ==> forall n | n in root.repr ::
      n.text == old(n.text) && n.children == old(n.children) && n.expanded == old(n.expanded)
  {
    if term == "" {
      ResetNodeColors(root);
      return;
    }
    SearchAndHighlight(root, ToLower(term));
  }
}
