/** The part of the tview widget library the program relies on: a tree node
    has a text, an ordered list of children, an expanded flag, a colour and
    an opaque reference, and the program keeps its own TreeData behind that
    reference. Rendering, layout and the event loop are not modelled. */
module TView {
  import opened Kube
  import AppTree

  /** TreeDataNodeType. */
  datatype NodeType = RootType | GroupType | ResourceType | FieldType

  /** The colours the program sets; PrimaryText is tview's default for a new
      node and Background the style's background colour. */
  datatype Color = PrimaryText | Background | White | Yellow | Green | Red

  /** tview.NewTreeNode creates expanded nodes. */
  const NewNodeExpanded := true

  /** TreeData: the custom properties stored behind a node's reference.
      main.go's TreeData has no gvr; there it is always None. */
  class TreeData {
    /** The type, path and GVR are set once, when the node is built. */
    const nodeType: NodeType
    /** The node is open as the root of a sub-view. */
    var inPreview: bool
    const path: string
    const gvr: Option<GVR>

    constructor (nodeType: NodeType, path: string, gvr: Option<GVR>)
      ensures this.nodeType == nodeType && this.path == path && this.gvr == gvr && !inPreview
    {
      this.nodeType := nodeType;
      this.path := path;
      this.gvr := gvr;
      inPreview := false;
    }
  }

  /** What a node's reference holds: nothing, a TreeData, or (in pkg/app)
      the field-trie node it was built from, given by its value since the
      trie no longer changes once the tree is built. */
  datatype Reference = NoReference | Data(data: TreeData) | TrieNode(node: AppTree.Tree)

  /** The value of a node at one moment: its own fields, the type of the
      TreeData behind its reference, and the values of its children. */
  datatype NodeValue = NodeValue(text: string, expanded: bool, color: Color, reference: Reference,
                                 kind: Option<NodeType>, kids: seq<NodeValue>)

  class TreeNode {
    var text: string
    var children: seq<TreeNode>
    var expanded: bool
    var reference: Reference
    var color: Color
    /** This node and every node below it. */
    ghost var repr: set<TreeNode>

    /** tview.NewTreeNode(text). */
    constructor (text: string)
      ensures this.text == text && children == [] && expanded == NewNodeExpanded
      ensures reference == NoReference && color == PrimaryText
      ensures Valid() && repr == {this}
    {
      this.text := text;
      children := [];
      expanded := NewNodeExpanded;
      reference := NoReference;
      color := PrimaryText;
      repr := {this};
    }

    /** The nodes below are a finite tree of subtrees: each child's subtree
        lies inside this footprint and does not contain this node. A whole
        subtree may be shared, so a node can have two parents. Only the
        children and the footprints are read, so changing a node's text,
        flags, colour or reference keeps every subtree valid. */
    ghost predicate Valid()
      reads this`children, this`repr, repr`children, repr`repr
      decreases repr
    {
      && this in repr
      && (forall i | 0 <= i < |children| ::
            children[i] in repr && children[i].repr <= repr && this !in children[i].repr && children[i].Valid())
    }

    /** This node and the nodes reachable from it through children. */
    ghost function Nodes(): (r: set<TreeNode>)
      requires Valid()
      reads this`children, this`repr, repr`children, repr`repr
      ensures this in r && r <= repr
      decreases repr, 1
    {
      {this} + NodesOf(children, |children|, repr)
    }

    /** The value of this subtree. */
    ghost function Snap(): NodeValue
      requires Valid()
      reads repr
      decreases repr, 1, 0
    {
      NodeValue(text, expanded, color, reference, KindOf(reference), SnapAll(children, repr))
    }

    /** TreeNode.AddChild: append a child. The footprint is left to the
        caller, which knows what the child will hold. */
    method AddChild(child: TreeNode)
      modifies this`children
      ensures children == old(children) + [child]
    {
      children := children + [child];
    }
  }

  /** parent.AddChild(c), with the parent taking in the nodes of `c`. */
  method Attach(parent: TreeNode, c: TreeNode)
    requires parent.Valid() && c.Valid() && c.repr !! parent.repr
    modifies parent`children, parent`repr
    ensures parent.Valid() && parent.repr == old(parent.repr) + c.repr
    ensures parent.Snap().kids == old(parent.Snap().kids) + [old(c.Snap())]
  {
    ghost var kids := parent.children;
    parent.AddChild(c);
    parent.repr := parent.repr + c.repr;
    forall i | 0 <= i < |kids|
      ensures parent.children[i].Valid() && parent.children[i].Snap() == old(parent.children[i].Snap())
    {
      assert old(parent.children[i].repr) <= old(parent.repr);
    }
  }

  /** Changing nothing below a node but the node's own text, flags,
      colour or reference keeps it valid and keeps the values of its
      children. */
  twostate lemma KidsKept(n: TreeNode)
    requires old(n.Valid())
    requires n.children == old(n.children) && n.repr == old(n.repr)
    requires unchanged(old(n.repr) - {n})
    ensures n.Valid() && n.Snap().kids == old(n.Snap().kids)
  {
    forall i | 0 <= i < |n.children|
      ensures n.children[i].Valid() && n.children[i].Snap() == old(n.children[i].Snap())
    {
      assert old(n.children[i].repr) <= old(n.repr);
    }
  }

  /** A subtree none of whose nodes changed keeps its value. */
  twostate lemma SnapKept(n: TreeNode)
    requires old(n.Valid()) && unchanged(old(n.repr))
    ensures n.Valid() && n.Snap() == old(n.Snap())
  {
  }

  /** A node whose own text, flags, colour and reference did not change
      keeps them in its value, whatever happened below it. */
  twostate lemma OwnKept(n: TreeNode)
    requires old(n.Valid()) && n.Valid()
    requires n.text == old(n.text) && n.expanded == old(n.expanded)
    requires n.color == old(n.color) && n.reference == old(n.reference)
    ensures n.Snap() == old(n.Snap()).(kids := n.Snap().kids)
  {
  }

  /** The values of the subtrees `ns`, each strictly inside `bound`. */
  ghost function SnapAll(ns: seq<TreeNode>, bound: set<TreeNode>): (r: seq<NodeValue>)
    requires forall i | 0 <= i < |ns| :: ns[i] in bound && ns[i].repr < bound && ns[i].Valid()
    reads bound
    ensures |r| == |ns|
    ensures forall i | 0 <= i < |ns| :: r[i] == ns[i].Snap()
    decreases bound, 0, |ns|
  {
    if |ns| == 0 then []
    else
      [ns[0].Snap()] + SnapAll(ns[1..], bound)
  }

  /** The nodes reachable from the first `n` subtrees of `ns`, each strictly
      inside `bound`. */
  ghost function NodesOf(ns: seq<TreeNode>, n: nat, bound: set<TreeNode>): (r: set<TreeNode>)
    requires n <= |ns|
    requires forall i | 0 <= i < |ns| :: ns[i] in bound && ns[i].repr < bound && ns[i].Valid()
    reads bound`children, bound`repr
    ensures r <= bound
    ensures forall i | 0 <= i < n :: ns[i].Nodes() <= r
    decreases bound, 0, n
  {
    if n == 0 then {}
    else NodesOf(ns, n - 1, bound) + ns[n - 1].Nodes()
  }

  /** A node outside every subtree of `ns` is not reachable from them. */
  lemma {:induction false} NodesOfAvoid(ns: seq<TreeNode>, n: nat, bound: set<TreeNode>, x: TreeNode)
    requires n <= |ns|
    requires forall i | 0 <= i < |ns| :: ns[i] in bound && ns[i].repr < bound && ns[i].Valid()
    requires forall i | 0 <= i < n :: x !in ns[i].repr
    ensures x !in NodesOf(ns, n, bound)
    decreases n
  {
    if n > 0 {
      NodesOfAvoid(ns, n - 1, bound, x);
    }
  }

  /** The type of the TreeData behind a reference, if it holds one. */
  function KindOf(r: Reference): Option<NodeType>
  {
    if r.Data? then Some(r.data.nodeType) else None
  }
}
