/** pkg/app/ui.go: the first version of the browser shows the field trie
    of pkg/app/node.go as a tview tree. addChildren copies the trie into
    tree nodes, children in ascending key order, each node holding its trie
    node as reference; the handlers open the gateways and statefulsets
    subtrees as sub-views and step back with Esc. */
module AppUI {
  import opened Kube
  import opened GoStrings
  import opened GoSort
  import opened TView
  import opened Views
  import AppTree

  /** The value of the tree node addChildren makes for the trie node `t`:
      a new node named like it, holding it as reference, and, when it has
      children, green with its expansion toggled and the children below in
      ascending key order. */
  ghost function Built(t: AppTree.Tree): NodeValue
    decreases t, 1
  {
    var has := t.kids != map[];
    AscendingSorted(t.kids.Keys);
    NodeValue(t.name, if has then !NewNodeExpanded else NewNodeExpanded, if has then Green else PrimaryText,
              TrieNode(t), None, BuiltEach(t, Ascending(t.kids.Keys)))
  }

  /** The values of the tree nodes made for the children of `t` under the
      keys `ks`, in the order of `ks`. */
  ghost function BuiltEach(t: AppTree.Tree, ks: seq<string>): (r: seq<NodeValue>)
    requires forall i | 0 <= i < |ks| :: ks[i] in t.kids
    ensures |r| == |ks|
    decreases t, 0, |ks|
  {
    if |ks| == 0 then []
    else BuiltEach(t, ks[..|ks| - 1]) + [Built(t.kids[ks[|ks| - 1]])]
  }

  /** The trie a tree value stands for: its text as name and, under each
      child's text, the trie of that child. */
  function Shape(v: NodeValue): AppTree.Tree
    decreases v, 1
  {
    AppTree.Tree(v.text, ShapeAll(v.kids))
  }

  function ShapeAll(vs: seq<NodeValue>): map<string, AppTree.Tree>
    decreases vs, 0
  {
    if |vs| == 0 then map[]
    else ShapeAll(vs[..|vs| - 1])[vs[|vs| - 1].text := Shape(vs[|vs| - 1])]
  }

  /** The texts of the values `vs`. */
  function Texts(vs: seq<NodeValue>): set<string>
  {
    set i | 0 <= i < |vs| :: vs[i].text
  }

  /** When each value of `vs` reads back as the entry of `m` under its
      text, ShapeAll gives those entries under those texts. */
  lemma {:induction false} ShapeAllLookup(vs: seq<NodeValue>, m: map<string, AppTree.Tree>)
    requires forall i | 0 <= i < |vs| :: vs[i].text in m && Shape(vs[i]) == m[vs[i].text]
    ensures ShapeAll(vs).Keys == Texts(vs)
    ensures forall k | k in ShapeAll(vs) :: ShapeAll(vs)[k] == m[k]
    decreases |vs|
  {
    if |vs| > 0 {
      var init := vs[..|vs| - 1];
      assert forall i | 0 <= i < |init| :: init[i] == vs[i];
      ShapeAllLookup(init, m);
      assert Texts(vs) == Texts(init) + {vs[|vs| - 1].text} by {
        forall k | k in Texts(vs) ensures k in Texts(init) + {vs[|vs| - 1].text} {
          var i :| 0 <= i < |vs| && vs[i].text == k;
          if i < |vs| - 1 { assert init[i].text == k; }
        }
      }
    }
  }

  /** The i-th child value made for the keys `ks` is the child under the
      i-th key, and it is named by that key when the trie is well named. */
  lemma {:induction false} BuiltEachAt(t: AppTree.Tree, ks: seq<string>)
    requires forall i | 0 <= i < |ks| :: ks[i] in t.kids
    ensures forall i | 0 <= i < |ks| :: BuiltEach(t, ks)[i] == Built(t.kids[ks[i]])
    ensures AppTree.WellNamed(t) ==> forall i | 0 <= i < |ks| :: BuiltEach(t, ks)[i].text == ks[i]
    decreases |ks|
  {
    if |ks| > 0 {
      BuiltEachAt(t, ks[..|ks| - 1]);
    }
  }

  /** The i-th child value of Built(t) is Built of the child under the
      i-th key in ascending order. */
  lemma BuiltKidsAt(t: AppTree.Tree)
    ensures |Built(t).kids| == |Ascending(t.kids.Keys)|
    ensures forall i | 0 <= i < |Ascending(t.kids.Keys)| ::
      Ascending(t.kids.Keys)[i] in t.kids && Built(t).kids[i] == Built(t.kids[Ascending(t.kids.Keys)[i]])
  {
    AscendingSorted(t.kids.Keys);
    BuiltEachAt(t, Ascending(t.kids.Keys));
  }

  /** Read back as a trie, the tree addChildren builds is the trie it was
      built from, as long as every trie node is named by its key. */
  lemma {:induction false} BuiltShape(t: AppTree.Tree)
    requires AppTree.WellNamed(t)
    ensures Shape(Built(t)) == t
    decreases t, 1
  {
    var kids := Built(t).kids;
    BuiltKidsShape(t);
    ShapeAllLookup(kids, t.kids);
    var shaped := ShapeAll(kids);
    assert shaped.Keys == t.kids.Keys && forall k | k in shaped :: shaped[k] == t.kids[k];
    assert shaped == t.kids;
  }

  /** Each child value reads back as the child under its text, and the
      texts are the keys. */
  lemma {:induction false} BuiltKidsShape(t: AppTree.Tree)
    requires AppTree.WellNamed(t)
    ensures forall i | 0 <= i < |Built(t).kids| :: Built(t).kids[i].text in t.kids && Shape(Built(t).kids[i]) == t.kids[Built(t).kids[i].text]
    ensures Texts(Built(t).kids) == t.kids.Keys
    decreases t, 0
  {
    var ks := Ascending(t.kids.Keys);
    AscendingSorted(t.kids.Keys);
    var kids := Built(t).kids;
    BuiltEachAt(t, ks);
    forall i | 0 <= i < |kids| ensures kids[i].text in t.kids && Shape(kids[i]) == t.kids[kids[i].text] {
      BuiltShape(t.kids[ks[i]]);
    }
    forall k | k in t.kids ensures k in Texts(kids) {
      var i :| 0 <= i < |ks| && ks[i] == k;
      assert kids[i].text == k;
    }
  }

  /** The children addChildren makes come in ascending order of their
      texts, and each is named by a key of the trie node. */
  lemma BuiltAscending(t: AppTree.Tree)
    requires AppTree.WellNamed(t)
    ensures forall i, j | 0 <= i < j < |Built(t).kids| :: LexLess(Built(t).kids[i].text, Built(t).kids[j].text)
    ensures forall i | 0 <= i < |Built(t).kids| :: Built(t).kids[i].text in t.kids
  {
    AscendingSorted(t.kids.Keys);
    BuiltEachAt(t, Ascending(t.kids.Keys));
  }

  /** addChildren(parent, children) for the children of the trie node
      `owner`: a parent with children turns green and toggles its
      expansion; then, key by key in ascending order, a new node carrying
      the child's name and the child as reference is appended to the parent
      and filled in the same way. Nothing that existed before changes but
      the parent. */
  method AddChildren(parent: TreeNode, children: map<string, AppTree.Tree>, ghost owner: AppTree.Tree)
    requires children == owner.kids
    requires parent.Valid()
    modifies parent`color, parent`expanded, parent`children, parent`repr
    ensures parent.Valid() && fresh(parent.repr - old(parent.repr))
    ensures parent.text == old(parent.text) && parent.reference == old(parent.reference)
    ensures parent.color == if children != map[] then Green else old(parent.color)
    ensures parent.expanded == if children != map[] then !old(parent.expanded) else old(parent.expanded)
    ensures parent.Snap().kids == old(parent.Snap().kids) + Built(owner).kids
    decreases owner, 3
  {
    if |children| != 0 {
      MarkParent(parent);
    }
    var keys := SortedKeys(children);
    BuiltKidsAt(owner);
    AddAll(parent, children, owner, keys, Built(owner).kids);
  }

  /** parent.SetColor(tcell.ColorGreen) and
      parent.SetExpanded(!parent.IsExpanded()). */
  method MarkParent(parent: TreeNode)
    requires parent.Valid()
    modifies parent`color, parent`expanded
    ensures parent.Valid() && parent.Snap().kids == old(parent.Snap().kids)
    ensures parent.color == Green && parent.expanded == !old(parent.expanded)
  {
    parent.color := Green;
    parent.expanded := !parent.expanded;
    KidsKept(parent);
  }

  /** addChildren's loop over the sorted keys: the parent gains `want`,
      the values Built gives for the children under the keys, in order. */
  method AddAll(parent: TreeNode, children: map<string, AppTree.Tree>, ghost owner: AppTree.Tree,
                keys: seq<string>, ghost want: seq<NodeValue>)
    requires children == owner.kids && |want| == |keys|
    requires forall i | 0 <= i < |keys| :: keys[i] in children && want[i] == Built(children[keys[i]])
    requires parent.Valid()
    modifies parent`children, parent`repr
    ensures parent.Valid() && fresh(parent.repr - old(parent.repr))
    ensures parent.Snap().kids == old(parent.Snap().kids) + want
    decreases owner, 2
  {
    ghost var before := parent.Snap().kids;
    for i := 0 to |keys|
      invariant parent.Valid() && fresh(parent.repr - old(parent.repr))
      invariant parent.Snap().kids == before + want[..i]
    {
      var key := keys[i];
      assert want[..i + 1] == want[..i] + [want[i]];
      AddOne(parent, children[key]);
    }
    assert want[..|keys|] == want;
  }

  /** One round of addChildren's loop: a new node for `child`, filled with
      the child's own children, is appended to the parent. The source
      appends the node before filling it; nothing reads the tree in
      between, so the tree comes out the same. */
  method AddOne(parent: TreeNode, child: AppTree.Tree)
    requires parent.Valid()
    modifies parent`children, parent`repr
    ensures parent.Valid() && fresh(parent.repr - old(parent.repr))
    ensures parent.Snap().kids == old(parent.Snap().kids) + [Built(child)]
    decreases child, 5
  {
    var childNode := NewChildNode(child);
    Attach(parent, childNode);
  }

  /** tview.NewTreeNode(child.Name).SetReference(child), filled by
      addChildren with the child's children. */
  method NewChildNode(child: AppTree.Tree) returns (c: TreeNode)
    ensures fresh(c.repr) && c.Valid() && c.Snap() == Built(child)
    decreases child, 4
  {
    c := new TreeNode(child.name);
    c.reference := TrieNode(child);
    AddChildren(c, child.kids, child);
  }

  /** The closures of App: the tree view's root and current node, the
      stack of opened sub-views and the view holding the focus. */
  class UIState {
    /** rootTree. */
    const root: TreeNode
    var viewRoot: TreeNode
    var current: TreeNode
    var stack: seq<TreeNode>
    var focus: Focus

    /** App's set-up for the trie `trie`: a root node named like it, in
        the background colour, expanded, filled by addChildren and then
        expanded again; it is the view's root and current node, the only
        one on the stack, and the tree view has the focus. */
    constructor (trie: AppTree.Tree)
      ensures root.Valid() && fresh(root.repr)
      ensures root.Snap() == RootValue(trie)
      ensures viewRoot == root && current == root && stack == [root] && focus == TreeView
    {
      var rootTree := BuildRoot(trie);
      root := rootTree;
      viewRoot := rootTree;
      current := rootTree;
      stack := [rootTree];
      focus := TreeView;
    }

    /** The selected handler: a node named gateways or statefulsets that
        has children is pushed, shown as the root, made current and
        expanded; any other node toggles its expansion. */
    method Select(node: TreeNode?)
      modifies this`stack, this`viewRoot, this`current, (if node == null then {} else {node})`expanded
      ensures node == null ==> stack == old(stack) && viewRoot == old(viewRoot) && current == old(current)
      ensures node != null && Drills(node) ==>
        stack == old(stack) + [node] && viewRoot == node && current == node && node.expanded
      ensures node != null && !Drills(node) ==>
        stack == old(stack) && viewRoot == old(viewRoot) && current == old(current) && node.expanded == !old(node.expanded)
    {
      if node == null {
        return;
      }
      if |node.children| > 0 && (node.text == "gateways" || node.text == "statefulsets") {
        stack := stack + [node];
        viewRoot := node;
        current := node;
        node.expanded := true;
      } else {
        node.expanded := !node.expanded;
      }
    }

    /** Tab in the tree view gives the focus to the details view. */
    method TreeTab()
      modifies this`focus
      ensures focus == DetailsView
    {
      focus := DetailsView;
    }

    /** Esc in the tree view: with more than the root on the stack, the top
        is popped, the new top shown as the root and the popped node kept
        current, and the key is consumed; with only the root the key is
        passed on and nothing changes. */
    method Escape() returns (consumed: bool)
      requires |stack| >= 1
      modifies this`stack, this`viewRoot, this`current
      ensures consumed <==> |old(stack)| > 1
      ensures consumed ==> stack == old(stack[..|stack| - 1]) && viewRoot == stack[|stack| - 1] && current == old(stack[|stack| - 1])
      ensures !consumed ==> stack == old(stack) && viewRoot == old(viewRoot) && current == old(current)
      ensures |stack| >= 1 && stack[0] == old(stack[0])
    {
      if |stack| <= 1 {
        return false;
      }
      var cur := stack[|stack| - 1];
      stack := stack[..|stack| - 1];
      viewRoot := stack[|stack| - 1];
      current := cur;
      return true;
    }

    /** Tab in the details view gives the focus back to the tree view. */
    method DetailsTab()
      modifies this`focus
      ensures focus == TreeView
    {
      focus := TreeView;
    }
  }

  /** The value of App's root node for the trie `trie`: named like it,
      expanded, green when it has children and otherwise in the background
      colour, without reference, with the children addChildren makes. */
  ghost function RootValue(trie: AppTree.Tree): NodeValue
  {
    NodeValue(trie.name, true, if trie.kids != map[] then Green else Background, NoReference, None, Built(trie).kids)
  }

  /** App's rootTree: a new node in the background colour, expanded,
      filled by addChildren and expanded again. */
  method BuildRoot(trie: AppTree.Tree) returns (rootTree: TreeNode)
    ensures fresh(rootTree.repr) && rootTree.Valid() && rootTree.Snap() == RootValue(trie)
  {
    rootTree := new TreeNode(trie.name);
    rootTree.color := Background;
    rootTree.expanded := true;
    AddChildren(rootTree, trie.kids, trie);
    Expand(rootTree);
  }

  /** node.SetExpanded(true). */
  method Expand(node: TreeNode)
    requires node.Valid()
    modifies node`expanded
    ensures node.Valid() && node.expanded && node.Snap().kids == old(node.Snap().kids)
  {
    node.expanded := true;
    KidsKept(node);
  }

  /** Selecting `node` opens it as a sub-view. */
  predicate Drills(node: TreeNode)
    reads node
  {
    |node.children| > 0 && (node.text == "gateways" || node.text == "statefulsets")
  }
}
