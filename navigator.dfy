/** internal/apidocs/uievents.go: the event handlers of the newest UI over
    one shared state. The navigation stack, which the source keeps in a
    variable the handlers close over, is a field here, and so are the
    handlers' error variable and the parts of the widgets they set. */
module Navigator {
  import opened Kube
  import opened GoStrings
  import opened TView
  import opened Views
  import TreeDataOps
  import TreeLinks
  import Search
  import Highlight

  /** What Select does to a node that holds TreeData. */
  datatype SelectCase = Open | Toggle | ToggleChildren

  /** What Select does to a node with TreeData of this type and flag. */
  function SelectCaseFor(t: NodeType, inPreview: bool): SelectCase
  {
    if t == GroupType || t == ResourceType then
      if inPreview then Toggle else Open
    else if t == RootType then ToggleChildren
    else Toggle
  }

  /** A node and its children: the nodes whose expanded flag Select and
      expandCollapseHJKL may change. */
  ghost function Touched(node: TreeNode?): set<TreeNode>
    reads (if node == null then {} else {node})`children
  {
    if node == null then {} else {node} + set c | c in node.children
  }

  /** The TreeData behind a node, if any. */
  ghost function Behind(node: TreeNode?): set<TreeData>
    reads node
  {
    if node == null then {} else TreeDataOps.DataBehind(node)
  }

  /** A toggle applied `count` times. */
  function Flip(count: nat, b: bool): bool
  {
    if count == 0 then b else !Flip(count - 1, b)
  }

  class UIState {
    /** apiResourcesRootNode: the full tree. */
    const root: TreeNode
    /** treeLinks: the parent of every node below the root. */
    const treeLinks: TreeLinks.TreeLinks
    /** The explainer behind the OpenAPI client: the text for a resource and
        a field path, or an error. */
    const explain: (GVR, string) -> Result<string>

    /** The tree view's root and current node. */
    var viewRoot: TreeNode
    var current: TreeNode
    /** navigationStack. */
    var stack: seq<TreeNode>
    var isInFilter: bool
    /** listenersErr. */
    var listenersErr: Option<Error>
    /** The details view's text. */
    var details: string
    var explainCache: map<string, string>
    var cmdInputIsOn: bool
    var cmdInputPurpose: Purpose
    /** The command input's label and text, and whether the layout shows it. */
    var cmdLabel: string
    var cmdText: string
    var inputShown: bool
    var focus: Focus
    /** The application was stopped. */
    var stopped: bool

    /** The handlers' invariant: the tree is a tree, the stack is sound,
        the links are parent links and the cache holds explanations. */
    ghost predicate Valid()
      reads this`stack, this`explainCache, root`children, root`repr, root.repr`children, root.repr`repr
      reads treeLinks`parentMap, treeLinks.parentMap.Values`children
      reads (set i | 0 <= i < |stack| :: stack[i])`reference
      reads (set i | 0 <= i < |stack| && stack[i].reference.Data? :: stack[i].reference.data)`inPreview
    {
      root.Valid() && StackValid() && LinksValid() && CacheValid()
    }

    /** The stack is a navigation stack over the full tree. */
    ghost predicate StackValid()
      reads this`stack
      reads (set i | 0 <= i < |stack| :: stack[i])`reference
      reads (set i | 0 <= i < |stack| && stack[i].reference.Data? :: stack[i].reference.data)`inPreview
    {
      TreeDataOps.PreviewStack(stack, root)
    }

    /** Every linked node is a child of its parent. */
    ghost predicate LinksValid()
      reads treeLinks`parentMap, treeLinks.parentMap.Values`children
    {
      TreeLinks.ParentLinks(treeLinks.parentMap)
    }

    /** Every cached text is one the explainer gave for that path. */
    ghost predicate CacheValid()
      reads this`explainCache
    {
      forall p | p in explainCache :: exists g :: explain(g, p) == Ok(explainCache[p])
    }

    /** The stack and the tree view are as they were. */
    twostate predicate ViewKept()
      reads this
    {
      stack == old(stack) && viewRoot == old(viewRoot) && current == old(current) && isInFilter == old(isInFilter)
    }

    /** The command input, the focus and the application are as they were. */
    twostate predicate InputKept()
      reads this
    {
      && cmdInputIsOn == old(cmdInputIsOn) && cmdInputPurpose == old(cmdInputPurpose)
      && cmdLabel == old(cmdLabel) && cmdText == old(cmdText) && inputShown == old(inputShown)
      && focus == old(focus) && stopped == old(stopped)
    }

    /** The details view and the cache are as they were. */
    twostate predicate DetailsKept()
      reads this
    {
      details == old(details) && explainCache == old(explainCache)
    }

    /** The state the handlers start from: the stack holds the root, which
        is shown, and the links of the whole tree are filled. */
    constructor (root: TreeNode, explain: (GVR, string) -> Result<string>)
      requires root.Valid()
      ensures Valid()
      ensures this.root == root && this.explain == explain && fresh(treeLinks)
      ensures treeLinks.parentMap == TreeLinks.Fill(map[], root)
      ensures stack == [root] && viewRoot == root && current == root && !isInFilter
      ensures listenersErr == None && details == "" && explainCache == map[]
      ensures !cmdInputIsOn && cmdText == "" && !inputShown && focus == TreeView && !stopped
    {
      var links := NewLinks(root);
      this.root := root;
      treeLinks := links;
      this.explain := explain;
      viewRoot := root;
      current := root;
      stack := [root];
      isInFilter := false;
      listenersErr := None;
      details := "";
      explainCache := map[];
      cmdInputIsOn := false;
      cmdInputPurpose := PurposeSearch;
      cmdLabel := "";
      cmdText := "";
      inputShown := false;
      focus := TreeView;
      stopped := false;
    }

    /** What Select leaves behind on a node holding the TreeData `d`, by
        the case the node was in before. A Group or Resource not in preview
        is put in preview, pushed, shown as the root, made current and
        expanded; the Root toggles each of its children (a child listed
        twice toggles twice); any other node, and a Group or Resource
        already in preview, toggles itself. Only these change. */
    twostate predicate SelectDone(node: TreeNode, d: TreeData)
      reads this, Touched(node), d
    {
      match SelectCaseFor(d.nodeType, old(d.inPreview))
      case Open =>
        && d.inPreview && stack == old(stack) + [node] && viewRoot == node && current == node
        && node.expanded && Untouched(node, {node})
      case ToggleChildren =>
        && stack == old(stack) && viewRoot == old(viewRoot) && current == old(current) && d.inPreview == old(d.inPreview)
        && node.children == old(node.children)
        && forall c | c in Touched(node) :: c.expanded == Flip(multiset(node.children)[c], old(c.expanded))
      case Toggle =>
        && stack == old(stack) && viewRoot == old(viewRoot) && current == old(current) && d.inPreview == old(d.inPreview)
        && node.expanded == !old(node.expanded) && Untouched(node, {node})
    }

    /** The selected handler (Enter): nothing for a nil node; the error for
        a node without TreeData; otherwise SelectDone. */
    method Select(node: TreeNode?)
      requires Valid()
      modifies this`stack, this`viewRoot, this`current, this`listenersErr, Touched(node)`expanded, Behind(node)`inPreview
      ensures Valid()
      ensures node == null ==> ViewKept() && listenersErr == old(listenersErr)
      ensures node != null && !old(node.reference.Data?) ==>
        && ViewKept() && node.expanded == old(node.expanded) && Untouched(node, {})
        && listenersErr == Some(TreeDataOps.ExtractTreeData(node).error)
      ensures node != null && old(node.reference.Data?) ==>
        SelectDone(node, node.reference.data) && listenersErr == old(listenersErr)
    {
      if node == null {
        return;
      }
      var data := TreeDataOps.ExtractTreeData(node);
      if data.Err? {
        listenersErr := Some(data.error);
        return;
      }
      SelectData(node, data.value);
    }

    /** Select on a node holding the TreeData `d`. */
    method SelectData(node: TreeNode, d: TreeData)
      requires Valid() && node.reference == Data(d)
      modifies this`stack, this`viewRoot, this`current, Touched(node)`expanded, d`inPreview
      ensures Valid() && SelectDone(node, d)
    {
      var groupOrResource := TreeDataOps.IsNodeType(d, [GroupType, ResourceType]);
      if groupOrResource && !d.inPreview {
        Preview(node, d);
      } else {
        SelectToggle(node, d, groupOrResource);
      }
    }

    /** Select on a node that is not opened: a Group or Resource already in
        preview toggles, the Root toggles its children, a Field toggles. */
    method SelectToggle(node: TreeNode, d: TreeData, groupOrResource: bool)
      requires groupOrResource <==> d.nodeType == GroupType || d.nodeType == ResourceType
      requires groupOrResource ==> d.inPreview
      modifies Touched(node)`expanded
      ensures SelectDone(node, d)
    {
      if groupOrResource {
        node.expanded := !node.expanded;
      } else {
        var isRoot := TreeDataOps.IsNodeType(d, [RootType]);
        if isRoot {
          ToggleEachChild(node.children);
        } else {
          node.expanded := !node.expanded;
        }
      }
    }

    /** Select on a Group or Resource not in preview. */
    method Preview(node: TreeNode, d: TreeData)
      requires Valid() && node.reference == Data(d) && !d.inPreview
      requires d.nodeType == GroupType || d.nodeType == ResourceType
      modifies this`stack, this`viewRoot, this`current, node`expanded, d`inPreview
      ensures Valid() && SelectDone(node, d)
    {
      assert forall i | 1 <= i < |stack| :: stack[i].reference.data != d;
      var err := TreeDataOps.SetInPreview(node, true);
      if err.Some? {
        assert false;
      }
      Push(node, d);
    }

    /** The rest of Preview once the node is in preview: push it, show it
        as the root, make it current and expand it. */
    method Push(node: TreeNode, d: TreeData)
      requires root.Valid() && LinksValid() && CacheValid()
      requires |stack| >= 1 && stack[0] == root && node.reference == Data(d) && d.inPreview
      requires forall i | 1 <= i < |stack| :: stack[i].reference.Data? && stack[i].reference.data.inPreview
      requires forall i, j | 1 <= i < j < |stack| :: stack[i].reference.data != stack[j].reference.data
      requires forall i | 1 <= i < |stack| :: stack[i].reference.data != d
      modifies this`stack, this`viewRoot, this`current, node`expanded
      ensures Valid()
      ensures stack == old(stack) + [node] && viewRoot == node && current == node && node.expanded
    {
      stack := stack + [node];
      viewRoot := node;
      current := node;
      node.expanded := true;
    }

    /** The top of the stack. */
    ghost function Top(): TreeNode
      requires |stack| >= 1
      reads this`stack
    {
      stack[|stack| - 1]
    }

    /** What Escape leaves behind when it leaves a sub-view opened on
        `cur`: `cur` is out of preview, a Resource collapsed and a Group
        expanded, `cur` is popped, the new top is shown as the root and
        `cur` is current. */
    twostate predicate PopDone(cur: TreeNode, d: TreeData)
      reads this, cur, d
    {
      && old(|stack|) >= 2 && stack == old(stack[..|stack| - 1])
      && viewRoot == stack[|stack| - 1] && current == cur
      && !d.inPreview && cur.expanded == EscapeExpanded(d.nodeType, old(cur.expanded))
    }

    /** The Escape key handler of the tree view. It is consumed only when
        the stack holds more than the root or a filtered tree is shown. A
        filtered tree is left for the full one, shown as the root and
        current, with the stack as it is; otherwise the top sub-view is
        left (PopDone). The root is never popped. */
    method Escape() returns (consumed: bool)
      requires Valid()
      modifies this`stack, this`viewRoot, this`current, this`isInFilter
      modifies {Top()}`expanded, TreeDataOps.DataBehind(Top())`inPreview
      ensures Valid()
      ensures consumed <==> old(|stack| > 1 || isInFilter)
      ensures !consumed ==> ViewKept()
      ensures old(isInFilter) ==>
        !isInFilter && viewRoot == root && current == root && stack == old(stack)
      ensures !old(isInFilter) && old(|stack|) > 1 ==>
        PopDone(old(Top()), old(Top().reference.data)) && isInFilter == old(isInFilter)
      ensures !(!old(isInFilter) && old(|stack|) > 1) ==>
        old(Top()).expanded == old(Top().expanded) && forall d | d in old(TreeDataOps.DataBehind(Top())) :: d.inPreview == old(d.inPreview)
    {
      if !(|stack| > 1 || isInFilter) {
        return false;
      }
      if isInFilter {
        isInFilter := false;
        viewRoot := root;
        current := root;
        return true;
      }
      Pop();
      return true;
    }

    /** Escape out of the top sub-view. */
    method Pop()
      requires Valid() && |stack| > 1
      modifies this`stack, this`viewRoot, this`current, {Top()}`expanded, TreeDataOps.DataBehind(Top())`inPreview
      ensures Valid() && PopDone(old(Top()), old(Top().reference.data))
    {
      var cur := stack[|stack| - 1];
      ghost var d := cur.reference.data;
      assert forall i | 1 <= i < |stack| - 1 :: stack[i].reference.data != d;
      var err := TreeDataOps.SetInPreview(cur, false);
      if err.Some? {
        assert false;
      }
      PopRest(cur, d);
    }

    /** The rest of Pop once `cur` is out of preview. */
    method PopRest(cur: TreeNode, ghost d: TreeData)
      requires root.Valid() && LinksValid() && CacheValid()
      requires |stack| > 1 && stack[0] == root && cur == Top() && cur.reference == Data(d) && !d.inPreview
      requires forall i | 1 <= i < |stack| - 1 :: stack[i].reference.Data? && stack[i].reference.data.inPreview
      requires forall i, j | 1 <= i < j < |stack| - 1 :: stack[i].reference.data != stack[j].reference.data
      modifies this`stack, this`viewRoot, this`current, cur`expanded
      ensures Valid() && PopDone(cur, d)
    {
      var data := TreeDataOps.ExtractTreeData(cur);
      if data.Err? {
        assert false;
      }
      SettleExpanded(cur, data.value);
      Drop(cur);
    }

    /** The last step of Escape: pop, show the new top, make `cur` current. */
    method Drop(cur: TreeNode)
      requires root.Valid() && LinksValid() && CacheValid()
      requires |stack| > 1 && stack[0] == root
      requires forall i | 1 <= i < |stack| - 1 :: stack[i].reference.Data? && stack[i].reference.data.inPreview
      requires forall i, j | 1 <= i < j < |stack| - 1 :: stack[i].reference.data != stack[j].reference.data
      modifies this`stack, this`viewRoot, this`current
      ensures Valid()
      ensures stack == old(stack[..|stack| - 1]) && viewRoot == stack[|stack| - 1] && current == cur
    {
      stack := stack[..|stack| - 1];
      viewRoot := stack[|stack| - 1];
      current := cur;
    }

    /** Tab in the tree view gives the focus to the details view. */
    method TreeTab()
      modifies this`focus
      ensures focus == DetailsView
    {
      focus := DetailsView;
    }

    /** Tab in the details view gives the focus back to the tree view. */
    method DetailsTab()
      modifies this`focus
      ensures focus == TreeView
    {
      focus := TreeView;
    }

    /** The h and l keys (and the arrows): expandCollapseHJKL on the
        current node, whose outcome replaces listenersErr, so a success
        clears an earlier error. */
    method ExpandCollapseKey(expanded: bool)
      modifies this`listenersErr, Touched(current)`expanded
      ensures listenersErr == if current.reference.Data? then None else Some(TreeDataOps.ExtractTreeData(current).error)
      ensures current.reference.Data? ==> HJKLDone(current, current.reference.data.nodeType, expanded)
      ensures !current.reference.Data? ==> Untouched(current, {}) && current.expanded == old(current.expanded)
    {
      var err := ExpandCollapseHJKL(current, expanded);
      listenersErr := err;
    }

    /** The changed handler: a new current node shows its path in the
        details view, and a Field or Resource its explanation below it
        (Describe). A node without TreeData records the error and shows
        nothing new. The explainer needs the node's resource, so a Field or
        Resource whose path is not cached must carry one. */
    method Changed(node: TreeNode?)
      requires Valid()
      requires node != null && node.reference.Data? ==> Explainable(node.reference.data, explainCache)
      modifies this`details, this`explainCache, this`listenersErr
      ensures Valid()
      ensures node == null ==> DetailsKept() && listenersErr == old(listenersErr)
      ensures node != null && !node.reference.Data? ==>
        DetailsKept() && listenersErr == Some(TreeDataOps.ExtractTreeData(node).error)
      ensures node != null && node.reference.Data? ==>
        var d := node.reference.data;
        && listenersErr == old(listenersErr)
        && (details, explainCache) == Describe(explain, d.nodeType, d.path, d.gvr, old(explainCache))
    {
      if node == null {
        return;
      }
      var data := TreeDataOps.ExtractTreeData(node);
      if data.Err? {
        listenersErr := Some(data.error);
        return;
      }
      ShowDetails(data.value);
    }

    /** The details of a node holding `d`: its path, explained for a Field
        or Resource. */
    method ShowDetails(d: TreeData)
      requires CacheValid() && Explainable(d, explainCache)
      modifies this`details, this`explainCache
      ensures CacheValid()
      ensures (details, explainCache) == Describe(explain, d.nodeType, d.path, d.gvr, old(explainCache))
    {
      details := d.path;
      var explainable := TreeDataOps.IsNodeType(d, [FieldType, ResourceType]);
      if explainable {
        ExplainPath(d);
      }
    }

    /** explainPath: a cached explanation is shown at once; otherwise the
        explainer is asked and, when it gives a text, the text is shown and
        cached. When it fails the details view keeps what it shows. */
    method ExplainPath(d: TreeData)
      requires CacheValid()
      requires d.nodeType == FieldType || d.nodeType == ResourceType
      requires Explainable(d, explainCache)
      modifies this`details, this`explainCache
      ensures CacheValid()
      ensures old(d.path in explainCache) ==>
        details == Explained(d.path, old(explainCache[d.path])) && explainCache == old(explainCache)
      ensures old(d.path !in explainCache) ==> match explain(d.gvr.value, d.path)
        case Ok(text) => details == Explained(d.path, text) && explainCache == old(explainCache)[d.path := text]
        case Err(_) => details == old(details) && explainCache == old(explainCache)
    {
      if d.path in explainCache {
        details := Explained(d.path, explainCache[d.path]);
      } else {
        var text := explain(d.gvr.value, d.path);
        if text.Ok? {
          details := Explained(d.path, text.value);
          explainCache := explainCache[d.path := text.value];
        }
      }
    }

    /** getClosestParentThatHasChildren: the parent recorded for the node,
        which always has the node among its children; the root when none is
        recorded (the root itself, a node of a filtered copy, or nil). */
    method ClosestParent(node: TreeNode?) returns (r: TreeNode)
      requires LinksValid()
      ensures r == if node != null && node in treeLinks.parentMap then treeLinks.parentMap[node] else root
      ensures node != null && node in treeLinks.parentMap ==> node in r.children
    {
      var n := node;
      while n != null
        invariant n == node || (n == null && (node == null || node !in treeLinks.parentMap))
        decreases if n == null then 0 else 1
      {
        var parent: TreeNode? := null;
        var key: TreeNode := n;
        if key in treeLinks.parentMap {
          parent := treeLinks.parentMap[key];
        }
        if parent != null && |parent.children| > 0 {
          return parent;
        }
        n := parent;
      }
      return root;
    }

    /** The b key: step back to the closest parent of the current node. */
    method Back()
      requires LinksValid()
      modifies this`current
      ensures current == if old(current) in treeLinks.parentMap then treeLinks.parentMap[old(current)] else root
      ensures old(current) in treeLinks.parentMap ==> old(current) in current.children
    {
      var parent := ClosestParent(current);
      current := parent;
    }

    /** The command input is shown with `caption`, for `purpose`, and has
        the focus; its text and the application are as they were. */
    twostate predicate InputOpened(caption: string, purpose: Purpose)
      reads this
    {
      && cmdLabel == caption && cmdInputIsOn && cmdInputPurpose == purpose && inputShown
      && focus == CmdInput && cmdText == old(cmdText) && stopped == old(stopped)
    }

    /** The / key opens the command input for a search, unless it is
        already open. */
    method Slash()
      modifies this`cmdLabel, this`cmdInputIsOn, this`cmdInputPurpose, this`inputShown, this`focus
      ensures old(cmdInputIsOn) ==> InputKept()
      ensures !old(cmdInputIsOn) ==> InputOpened(SearchLabel, PurposeSearch)
    {
      if cmdInputIsOn {
        return;
      }
      cmdLabel := SearchLabel;
      cmdInputIsOn := true;
      cmdInputPurpose := PurposeSearch;
      inputShown := true;
      focus := CmdInput;
    }

    /** The : key opens the command input for a command, unless it is
        already open. */
    method Colon()
      modifies this`cmdLabel, this`cmdInputIsOn, this`cmdInputPurpose, this`inputShown, this`focus
      ensures old(cmdInputIsOn) ==> InputKept()
      ensures !old(cmdInputIsOn) ==> InputOpened(CommandLabel, PurposeCmd)
    {
      if cmdInputIsOn {
        return;
      }
      cmdLabel := CommandLabel;
      cmdInputIsOn := true;
      cmdInputPurpose := PurposeCmd;
      inputShown := true;
      focus := CmdInput;
    }

    /** The command input is closed and hidden and the tree view has the
        focus. */
    predicate InputClosed()
      reads this
    {
      !cmdInputIsOn && !inputShown && focus == TreeView
    }

    /** The done handler of the command input. Enter runs a search with the
        typed term, or stops the application on the command q, then clears
        and closes the input whatever it held; Esc closes an open input and
        keeps its text; any other key does nothing. */
    method CmdDone(key: DoneKey)
      requires Valid()
      modifies this`cmdText, this`cmdInputIsOn, this`inputShown, this`focus, this`stopped
      modifies this`viewRoot, this`current, this`isInFilter
      ensures Valid()
      ensures stopped == (old(stopped) || (key == KeyEnter && old(cmdInputIsOn) && old(cmdInputPurpose) == PurposeCmd && old(cmdText) == "q"))
      ensures key == KeyEnter ==> InputClosed() && cmdText == ""
      ensures key == KeyEnter && old(cmdInputIsOn) && old(cmdInputPurpose) == PurposeSearch ==> ShownFiltered(old(cmdText))
      ensures !(key == KeyEnter && old(cmdInputIsOn) && old(cmdInputPurpose) == PurposeSearch) ==>
        viewRoot == old(viewRoot) && current == old(current) && isInFilter == old(isInFilter)
      ensures key == KeyEsc && old(cmdInputIsOn) ==> InputClosed() && cmdText == old(cmdText)
      ensures (key == KeyEsc && !old(cmdInputIsOn)) || key == OtherDoneKey ==> InputKept()
    {
      if key == KeyEnter {
        EnterDone();
      } else if key == KeyEsc && cmdInputIsOn {
        cmdInputIsOn := false;
        inputShown := false;
        focus := TreeView;
      }
    }

    /** Enter in the command input. */
    method EnterDone()
      requires root.Valid()
      modifies this`cmdText, this`cmdInputIsOn, this`inputShown, this`focus, this`stopped
      modifies this`viewRoot, this`current, this`isInFilter
      ensures stopped == (old(stopped) || (old(cmdInputIsOn) && old(cmdInputPurpose) == PurposeCmd && old(cmdText) == "q"))
      ensures InputClosed() && cmdText == ""
      ensures old(cmdInputIsOn) && old(cmdInputPurpose) == PurposeSearch ==> ShownFiltered(old(cmdText))
      ensures !(old(cmdInputIsOn) && old(cmdInputPurpose) == PurposeSearch) ==>
        viewRoot == old(viewRoot) && current == old(current) && isInFilter == old(isInFilter)
    {
      var quit := cmdInputIsOn && cmdInputPurpose == PurposeCmd && cmdText == "q";
      if cmdInputIsOn && cmdInputPurpose == PurposeSearch {
        ShowFilteredTree(cmdText);
      }
      CloseInput(quit);
    }

    /** The end of Enter: stop the application on the command q, then clear,
        close and hide the input and focus the tree view. */
    method CloseInput(quit: bool)
      modifies this`cmdText, this`cmdInputIsOn, this`inputShown, this`focus, this`stopped
      ensures stopped == (old(stopped) || quit)
      ensures InputClosed() && cmdText == ""
    {
      if quit {
        stopped := true;
      }
      cmdText := "";
      cmdInputIsOn := false;
      inputShown := false;
      focus := TreeView;
    }

    /** What showFilteredTree shows for `term`: the full tree for an empty
        term (the filter flag is left as it was); otherwise a new tree whose
        value is the filtered copy of the full tree for the lower-cased
        term, or a lone "(no matches)" node, with every node white, shown
        as the root and current, with the filter flag set. */
    twostate predicate ShownFiltered(term: string)
      reads this`viewRoot, this`current, this`isInFilter, viewRoot, viewRoot.repr
    {
      if term == "" then viewRoot == root && current == root && isInFilter == old(isInFilter)
      else
        && old(root.Valid()) && isInFilter && current == viewRoot
        && fresh(viewRoot) && fresh(viewRoot.repr) && viewRoot.Valid()
        && viewRoot.Snap() == Highlight.Whitened(FilteredValue(old(root.Snap()), ToLower(term)))
    }

    /** showFilteredTree(term). */
    method ShowFilteredTree(term: string)
      requires root.Valid()
      modifies this`viewRoot, this`current, this`isInFilter
      ensures ShownFiltered(term)
    {
      if term == "" {
        viewRoot := root;
        current := root;
        return;
      }
      var filtered := FilteredRoot(root, ToLower(term));
      isInFilter := true;
      viewRoot := filtered;
      current := filtered;
    }
  }

  /** The value of the node shown when a search matches nothing. */
  const NoMatchesValue := NodeValue(NoMatches, NewNodeExpanded, PrimaryText, NoReference, None, [])

  /** The root showFilteredTree shows for a non-empty (lower-cased)
      `term`: the filtered copy of the tree at `root`, or a new "(no
      matches)" node, with every node turned white by resetNodeColors. */
  method FilteredRoot(root: TreeNode, term: string) returns (filtered: TreeNode)
    requires root.Valid()
    ensures fresh(filtered) && fresh(filtered.repr) && filtered.Valid()
    ensures filtered.Snap() == Highlight.Whitened(FilteredValue(root.Snap(), term))
  {
    ghost var shown := FilteredValue(root.Snap(), term);
    var found := Search.BuildFilteredTree(root, term);
    if found == null {
      filtered := new TreeNode(NoMatches);
      assert filtered.Snap() == NoMatchesValue == shown;
    } else {
      filtered := found;
    }
    Highlight.ResetTree(filtered);
  }

  /** The value of the tree a search for the (lower-cased) `term` builds
      from the tree of value `r`: its filtered copy, or the lone "(no
      matches)" node. */
  function FilteredValue(r: NodeValue, term: string): NodeValue
  {
    match Search.Filter(r, term)
    case Some(v) => v
    case None => NoMatchesValue
  }

  /** The expanded flag a node `c` has after expandCollapseHJKL on a node
      of type `t`: a Field or Group sets its own flag, the Root sets the
      flags of its children, a Resource changes nothing. */
  function HJKLExpanded(t: NodeType, target: bool, isSelf: bool, isChild: bool, before: bool): bool
  {
    if (t == FieldType || t == GroupType) && isSelf then target
    else if t == RootType && isChild then target
    else before
  }

  /** The outcome of expandCollapseHJKL on a node of type `t`. */
  twostate predicate HJKLDone(node: TreeNode, t: NodeType, expanded: bool)
    reads node`children, Touched(node)
  {
    && node.children == old(node.children)
    && forall c | c in Touched(node) ::
         c.expanded == HJKLExpanded(t, expanded, c == node, c in node.children, old(c.expanded))
  }

  /** expandCollapseHJKL(node, expanded): an error when the node holds no
      TreeData, and then nothing changes; otherwise HJKLDone. */
  method ExpandCollapseHJKL(node: TreeNode, expanded: bool) returns (err: Option<Error>)
    modifies Touched(node)`expanded
    ensures err.None? <==> node.reference.Data?
    ensures err.Some? ==> err == Some(TreeDataOps.ExtractTreeData(node).error) && Untouched(node, {}) && node.expanded == old(node.expanded)
    ensures err.None? ==> HJKLDone(node, node.reference.data.nodeType, expanded)
  {
    var data := TreeDataOps.ExtractTreeData(node);
    if data.Err? {
      return Some(data.error);
    }
    var own := TreeDataOps.IsNodeType(data.value, [FieldType, GroupType]);
    var isRoot := TreeDataOps.IsNodeType(data.value, [RootType]);
    SetHJKL(node, expanded, own, isRoot);
    return None;
  }

  /** The stores of expandCollapseHJKL once the type tests are made. */
  method SetHJKL(node: TreeNode, expanded: bool, own: bool, isRoot: bool)
    modifies Touched(node)`expanded
    ensures node.children == old(node.children)
    ensures forall c | c in Touched(node) ::
      c.expanded == if own && c == node then expanded else if isRoot && c in node.children then expanded else old(c.expanded)
  {
    if own {
      node.expanded := expanded;
    }
    if isRoot {
      SetEachChild(node.children, expanded);
    }
  }

  /** Set the expanded flag of every node of `kids`. */
  method SetEachChild(kids: seq<TreeNode>, expanded: bool)
    modifies (set c | c in kids)`expanded
    ensures forall c | c in kids :: c.expanded == expanded
  {
    for i := 0 to |kids|
      invariant forall c | c in kids :: c.expanded == if c in kids[..i] then expanded else old(c.expanded)
    {
      kids[i].expanded := expanded;
    }
  }

  /** The details text for a path and its explanation. */
  function Explained(path: string, text: string): string
  {
    path + "\n\n" + text
  }

  /** The explainer can be asked for `d`: a Field or Resource whose path
      is not cached carries its resource. */
  predicate Explainable(d: TreeData, cache: map<string, string>)
    reads d
  {
    (d.nodeType == FieldType || d.nodeType == ResourceType) && d.path !in cache ==> d.gvr.Some?
  }

  /** The details text and the cache after the changed handler on a node
      of type `t` at `path`: the path alone for a Root or Group; for a Field
      or Resource the path with its cached explanation, or else with the
      explainer's text, which is then cached, or the path alone when the
      explainer fails. */
  function Describe(explain: (GVR, string) -> Result<string>, t: NodeType, path: string, gvr: Option<GVR>,
                    cache: map<string, string>): (r: (string, map<string, string>))
    requires (t == FieldType || t == ResourceType) && path !in cache ==> gvr.Some?
    ensures forall p | p in cache :: p in r.1 && r.1[p] == cache[p]
    ensures r.1.Keys <= cache.Keys + {path}
    ensures path in r.1 && path !in cache ==> gvr.Some? && explain(gvr.value, path) == Ok(r.1[path])
    ensures (t == FieldType || t == ResourceType) && path in r.1 ==> r.0 == Explained(path, r.1[path])
    ensures !((t == FieldType || t == ResourceType) && path in r.1) ==> r.0 == path && r.1 == cache
  {
    if t != FieldType && t != ResourceType then (path, cache)
    else if path in cache then (Explained(path, cache[path]), cache)
    else match explain(gvr.value, path)
      case Ok(text) => (Explained(path, text), cache[path := text])
      case Err(_) => (path, cache)
  }

  /** A second change to the same node shows the same text and caches
      nothing new: the cache makes the handler idempotent. */
  lemma DescribeTwice(explain: (GVR, string) -> Result<string>, t: NodeType, path: string, gvr: Option<GVR>,
                      cache: map<string, string>)
    requires (t == FieldType || t == ResourceType) && path !in cache ==> gvr.Some?
    ensures var r := Describe(explain, t, path, gvr, cache);
      Describe(explain, t, path, gvr, r.1) == r
  {
  }

  /** The expanded flag Escape leaves on the node it leaves: a Resource
      is collapsed (only its name is needed), a Group expanded. */
  function EscapeExpanded(t: NodeType, expanded: bool): bool
  {
    if t == ResourceType then false else if t == GroupType then true else expanded
  }

  /** Escape's two type tests on the node it leaves. */
  method SettleExpanded(cur: TreeNode, d: TreeData)
    modifies cur`expanded
    ensures cur.expanded == EscapeExpanded(d.nodeType, old(cur.expanded))
  {
    var isResource := TreeDataOps.IsNodeType(d, [ResourceType]);
    if isResource {
      cur.expanded := false;
    }
    var isGroup := TreeDataOps.IsNodeType(d, [GroupType]);
    if isGroup {
      cur.expanded := true;
    }
  }

  /** NewTreeLinks followed by FillLinks(root). */
  method NewLinks(root: TreeNode) returns (links: TreeLinks.TreeLinks)
    requires root.Valid()
    ensures fresh(links) && links.parentMap == TreeLinks.Fill(map[], root)
    ensures TreeLinks.ParentLinks(links.parentMap)
  {
    links := new TreeLinks.TreeLinks();
    links.FillLinks(root);
    TreeLinks.FillParents(root);
  }

  /** The children of `node` other than those in `except` keep their
      expanded flag. */
  twostate predicate Untouched(node: TreeNode, except: set<TreeNode>)
    reads node`children, node.children
  {
    node.children == old(node.children) && forall c | c in node.children && c !in except :: c.expanded == old(c.expanded)
  }

  /** The loop over the Root's children in Select: each node of `kids`
      is toggled once per time it is listed. */
  method ToggleEachChild(kids: seq<TreeNode>)
    modifies (set c | c in kids)`expanded
    ensures forall c | c in kids :: c.expanded == Flip(multiset(kids)[c], old(c.expanded))
  {
    for i := 0 to |kids|
      invariant forall c | c in kids :: c.expanded == Flip(multiset(kids[..i])[c], old(c.expanded))
    {
      var nc := kids[i];
      assert multiset(kids[..i + 1]) == multiset(kids[..i]) + multiset{nc} by {
        assert kids[..i + 1] == kids[..i] + [nc];
      }
      nc.expanded := !nc.expanded;
    }
    assert kids[..|kids|] == kids;
  }
}
