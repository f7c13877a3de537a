/** pkg/apidocs/uievents.go: the earlier event handlers of the tree view,
    the details view, the command input and the application. They keep a
    navigation stack as the newer ones do, but have no filter, no cache,
    no parent links and no q command, and a search colours the tree in
    place.

    That package calls extractTreeData without defining it; the model takes
    the one of internal/apidocs/treedata.go. Its setInPreview is the one
    of pkg/apidocs/treedata.go, which ends the process when the node holds
    no TreeData. */
module LegacyNavigator {
  import opened Kube
  import opened GoStrings
  import opened TView
  import opened Views
  import TreeDataOps
  import LegacyTreeData
  import Highlight
  import Navigator

  /** Select opens a node in a sub-view exactly when it is a Group or a
      Resource that is not in preview yet. */
  predicate Opens(t: NodeType, inPreview: bool)
  {
    (t == GroupType || t == ResourceType) && !inPreview
  }

  /** The node itself, if any. */
  function Self(node: TreeNode?): set<TreeNode>
  {
    if node == null then {} else {node}
  }

  /** The details text of the changed handler for a node of type `t` at
      `path`: the path, and for a Field or Resource the explainer's text
      below it when the explainer gives one. */
  function ExplainedDetails(explain: (GVR, string) -> Result<string>, t: NodeType, path: string, gvr: Option<GVR>): (r: string)
    requires t == FieldType || t == ResourceType ==> gvr.Some?
    ensures IsPrefix(path, r)
    ensures r != path ==> (t == FieldType || t == ResourceType) && explain(gvr.value, path).Ok?
    ensures (t == FieldType || t == ResourceType) && explain(gvr.value, path).Ok? ==>
      r == Navigator.Explained(path, explain(gvr.value, path).value)
  {
    if t != FieldType && t != ResourceType then path
    else match explain(gvr.value, path)
      case Ok(text) => Navigator.Explained(path, text)
      case Err(_) => path
  }

  /** The cache of the newer handler changes nothing that is shown while it
      holds only what the explainer gives for the node's own resource: the
      details equal those of this uncached handler. */
  lemma CacheShowsSame(explain: (GVR, string) -> Result<string>, t: NodeType, path: string, gvr: Option<GVR>,
                       cache: map<string, string>)
    requires t == FieldType || t == ResourceType ==> gvr.Some?
    requires (t == FieldType || t == ResourceType) && path in cache ==> explain(gvr.value, path) == Ok(cache[path])
    ensures Navigator.Describe(explain, t, path, gvr, cache).0 == ExplainedDetails(explain, t, path, gvr)
  {
  }

  class UIState {
    /** apiResourcesRootNode: the full tree. */
    const root: TreeNode
    /** The explainer behind the OpenAPI client. */
    const explain: (GVR, string) -> Result<string>

    /** The tree view's root and current node. */
    var viewRoot: TreeNode
    var current: TreeNode
    /** navigationStack. */
    var stack: seq<TreeNode>
    /** listenersErr. */
    var listenersErr: Option<Error>
    /** The details view's text. */
    var details: string
    var cmdInputIsOn: bool
    var cmdInputPurpose: Purpose
    /** The command input's label and text, and whether the layout shows it. */
    var cmdLabel: string
    var cmdText: string
    var inputShown: bool
    var focus: Focus

    /** The handlers' invariant: the tree is a tree and the stack is sound. */
    ghost predicate Valid()
      reads this`stack, root`children, root`repr, root.repr`children, root.repr`repr
      reads (set i | 0 <= i < |stack| :: stack[i])`reference
      reads (set i | 0 <= i < |stack| && stack[i].reference.Data? :: stack[i].reference.data)`inPreview
    {
      root.Valid() && TreeDataOps.PreviewStack(stack, root)
    }

    /** The stack and the tree view are as they were. */
    twostate predicate ViewKept()
      reads this
    {
      stack == old(stack) && viewRoot == old(viewRoot) && current == old(current)
    }

    /** The command input and the focus are as they were. */
    twostate predicate InputKept()
      reads this
    {
      && cmdInputIsOn == old(cmdInputIsOn) && cmdInputPurpose == old(cmdInputPurpose)
      && cmdLabel == old(cmdLabel) && cmdText == old(cmdText) && inputShown == old(inputShown)
      && focus == old(focus)
    }

    /** The state the handlers start from: the stack holds the root, which
        is shown. */
    constructor (root: TreeNode, explain: (GVR, string) -> Result<string>)
      requires root.Valid()
      ensures Valid()
      ensures this.root == root && this.explain == explain
      ensures stack == [root] && viewRoot == root && current == root
      ensures listenersErr == None && details == ""
      ensures !cmdInputIsOn && cmdText == "" && !inputShown && focus == TreeView
    {
      this.root := root;
      this.explain := explain;
      viewRoot := root;
      current := root;
      stack := [root];
      listenersErr := None;
      details := "";
      cmdInputIsOn := false;
      cmdInputPurpose := PurposeSearch;
      cmdLabel := "";
      cmdText := "";
      inputShown := false;
      focus := TreeView;
    }

    /** What Select leaves behind on a node holding `d`: a Group or
        Resource not in preview is put in preview, pushed, shown as the
        root, made current and expanded; any other node, the Root included,
        toggles itself and nothing else changes. */
    twostate predicate SelectDone(node: TreeNode, d: TreeData)
      reads this, node, d
    {
      if Opens(d.nodeType, old(d.inPreview)) then
        && d.inPreview && stack == old(stack) + [node] && viewRoot == node && current == node
        && node.expanded
      else
        && stack == old(stack) && viewRoot == old(viewRoot) && current == old(current)
        && d.inPreview == old(d.inPreview) && node.expanded == !old(node.expanded)
    }

    /** The selected handler (Enter): nothing for a nil node; the error for
        a node without TreeData; otherwise SelectDone. */
    method Select(node: TreeNode?)
      requires Valid()
      modifies this`stack, this`viewRoot, this`current, this`listenersErr, Self(node)`expanded, Navigator.Behind(node)`inPreview
      ensures Valid()
      ensures node == null ==> ViewKept() && listenersErr == old(listenersErr)
      ensures node != null && !old(node.reference.Data?) ==>
        && ViewKept() && node.expanded == old(node.expanded)
        && listenersErr == Some(TreeDataOps.ExtractTreeData(node).error)
      ensures node != null && old(node.reference.Data?) ==>
        SelectDone(node, node.reference.data) && listenersErr == old(listenersErr)
    {
      if node == null {
        return;
      }
      var data := TreeDataOps.ExtractTreeData(node);
      if data.Err? {
        listenersErr := Some(data.error);
        return;
      }
      SelectData(node, data.value);
    }

    /** Select on a node holding the TreeData `d`. */
    method SelectData(node: TreeNode, d: TreeData)
      requires Valid() && node.reference == Data(d)
      modifies this`stack, this`viewRoot, this`current, node`expanded, d`inPreview
      ensures Valid() && SelectDone(node, d)
    {
      if (d.nodeType == GroupType || d.nodeType == ResourceType) && !d.inPreview {
        Preview(node, d);
      } else {
        node.expanded := !node.expanded;
      }
    }

    /** Select on a Group or Resource not in preview. setInPreview cannot
        end the process here: the node holds `d`. */
    method Preview(node: TreeNode, d: TreeData)
      requires Valid() && node.reference == Data(d) && Opens(d.nodeType, d.inPreview)
      modifies this`stack, this`viewRoot, this`current, node`expanded, d`inPreview
      ensures Valid() && SelectDone(node, d)
    {
      assert forall i | 1 <= i < |stack| :: stack[i].reference.data != d;
      var exited := LegacyTreeData.SetInPreview(node, true);
      if exited {
        assert false;
      }
      Push(node, d);
    }

    /** The rest of Preview once the node is in preview. */
    method Push(node: TreeNode, d: TreeData)
      requires root.Valid()
      requires |stack| >= 1 && stack[0] == root && node.reference == Data(d) && d.inPreview
      requires forall i | 1 <= i < |stack| :: stack[i].reference.Data? && stack[i].reference.data.inPreview
      requires forall i, j | 1 <= i < j < |stack| :: stack[i].reference.data != stack[j].reference.data
      requires forall i | 1 <= i < |stack| :: stack[i].reference.data != d
      modifies this`stack, this`viewRoot, this`current, node`expanded
      ensures Valid()
      ensures stack == old(stack) + [node] && viewRoot == node && current == node && node.expanded
    {
      stack := stack + [node];
      viewRoot := node;
      current := node;
      node.expanded := true;
    }

    /** Tab in the tree view gives the focus to the details view. */
    method TreeTab()
      modifies this`focus
      ensures focus == DetailsView
    {
      focus := DetailsView;
    }

    /** Tab in the details view gives the focus back to the tree view. */
    method DetailsTab()
      modifies this`focus
      ensures focus == TreeView
    {
      focus := TreeView;
    }

    /** The top of the stack. */
    ghost function Top(): TreeNode
      requires |stack| >= 1
      reads this`stack
    {
      stack[|stack| - 1]
    }

    /** What Escape leaves behind when it leaves the sub-view opened on
        `cur`: `cur` is out of preview, a Resource collapsed and a Group
        expanded, `cur` is popped, the new top is shown as the root and
        `cur` is current. */
    twostate predicate PopDone(cur: TreeNode, d: TreeData)
      reads this, cur, d
    {
      && old(|stack|) >= 2 && stack == old(stack[..|stack| - 1])
      && viewRoot == stack[|stack| - 1] && current == cur
      && !d.inPreview && cur.expanded == Navigator.EscapeExpanded(d.nodeType, old(cur.expanded))
    }

    /** The Escape key handler of the tree view: consumed exactly when the
        stack holds more than the root, and then PopDone; otherwise the
        event passes on and nothing changes. */
    method Escape() returns (consumed: bool)
      requires Valid()
      modifies this`stack, this`viewRoot, this`current
      modifies {Top()}`expanded, TreeDataOps.DataBehind(Top())`inPreview
      ensures Valid()
      ensures consumed <==> old(|stack|) > 1
      ensures consumed ==> PopDone(old(Top()), old(Top().reference.data))
      ensures !consumed ==>
        && ViewKept() && old(Top()).expanded == old(Top().expanded)
        && forall d | d in old(TreeDataOps.DataBehind(Top())) :: d.inPreview == old(d.inPreview)
    {
      if |stack| <= 1 {
        return false;
      }
      Pop();
      return true;
    }

    /** Escape out of the top sub-view. setInPreview cannot end the process
        here: every entry above the root holds TreeData. */
    method Pop()
      requires Valid() && |stack| > 1
      modifies this`stack, this`viewRoot, this`current, {Top()}`expanded, TreeDataOps.DataBehind(Top())`inPreview
      ensures Valid() && PopDone(old(Top()), old(Top().reference.data))
    {
      var cur := stack[|stack| - 1];
      ghost var d := cur.reference.data;
      assert forall i | 1 <= i < |stack| - 1 :: stack[i].reference.data != d;
      var exited := LegacyTreeData.SetInPreview(cur, false);
      if exited {
        assert false;
      }
      PopRest(cur, d);
    }

    /** The rest of Pop once `cur` is out of preview: the type tests, then
        the pop. */
    method PopRest(cur: TreeNode, ghost d: TreeData)
      requires root.Valid()
      requires |stack| > 1 && stack[0] == root && cur == Top() && cur.reference == Data(d) && !d.inPreview
      requires forall i | 1 <= i < |stack| - 1 :: stack[i].reference.Data? && stack[i].reference.data.inPreview
      requires forall i, j | 1 <= i < j < |stack| - 1 :: stack[i].reference.data != stack[j].reference.data
      modifies this`stack, this`viewRoot, this`current, cur`expanded
      ensures Valid() && PopDone(cur, d)
    {
      var data := TreeDataOps.ExtractTreeData(cur);
      if data.Err? {
        assert false;
      }
      if data.value.nodeType == ResourceType {
        cur.expanded := false;
      }
      if data.value.nodeType == GroupType {
        cur.expanded := true;
      }
      stack := stack[..|stack| - 1];
      viewRoot := stack[|stack| - 1];
      current := cur;
    }

    /** The changed handler: a node without TreeData records the error; a
        node with TreeData shows ExplainedDetails. The explainer needs the
        node's resource, so a Field or Resource must carry one. */
    method Changed(node: TreeNode?)
      requires node != null && node.reference.Data? ==>
        var d := node.reference.data; d.nodeType == FieldType || d.nodeType == ResourceType ==> d.gvr.Some?
      modifies this`details, this`listenersErr
      ensures node == null ==> details == old(details) && listenersErr == old(listenersErr)
      ensures node != null && !node.reference.Data? ==>
        details == old(details) && listenersErr == Some(TreeDataOps.ExtractTreeData(node).error)
      ensures node != null && node.reference.Data? ==>
        var d := node.reference.data;
        details == ExplainedDetails(explain, d.nodeType, d.path, d.gvr) && listenersErr == old(listenersErr)
    {
      if node == null {
        return;
      }
      var data := TreeDataOps.ExtractTreeData(node);
      if data.Err? {
        listenersErr := Some(data.error);
        return;
      }
      var d := data.value;
      details := d.path;
      if d.nodeType == FieldType || d.nodeType == ResourceType {
        var text := explain(d.gvr.value, d.path);
        if text.Ok? {
          details := Navigator.Explained(d.path, text.value);
        }
      }
    }

    /** The command input is shown with `caption`, for `purpose`, and has
        the focus; its text is as it was. */
    twostate predicate InputOpened(caption: string, purpose: Purpose)
      reads this
    {
      && cmdLabel == caption && cmdInputIsOn && cmdInputPurpose == purpose && inputShown
      && focus == CmdInput && cmdText == old(cmdText)
    }

    /** The / key opens the command input for a search, unless it is
        already open. */
    method Slash()
      modifies this`cmdLabel, this`cmdInputIsOn, this`cmdInputPurpose, this`inputShown, this`focus
      ensures old(cmdInputIsOn) ==> InputKept()
      ensures !old(cmdInputIsOn) ==> InputOpened(SearchLabel, PurposeSearch)
    {
      if cmdInputIsOn {
        return;
      }
      cmdLabel := SearchLabel;
      cmdInputIsOn := true;
      cmdInputPurpose := PurposeSearch;
      inputShown := true;
      focus := CmdInput;
    }

    /** The : key opens the command input for a command, unless it is
        already open. */
    method Colon()
      modifies this`cmdLabel, this`cmdInputIsOn, this`cmdInputPurpose, this`inputShown, this`focus
      ensures old(cmdInputIsOn) ==> InputKept()
      ensures !old(cmdInputIsOn) ==> InputOpened(CommandLabel, PurposeCmd)
    {
      if cmdInputIsOn {
        return;
      }
      cmdLabel := CommandLabel;
      cmdInputIsOn := true;
      cmdInputPurpose := PurposeCmd;
      inputShown := true;
      focus := CmdInput;
    }

    /** The done handler of the command input, which only acts on Enter: a
        search highlights the typed term over the whole tree; whatever the
        input held, it is then cleared, closed and hidden and the tree view
        has the focus. Commands do nothing. */
    method CmdDone(key: DoneKey)
      requires Valid()
      modifies this`cmdText, this`cmdInputIsOn, this`inputShown, this`focus, root.repr`color
      ensures Valid()
      ensures key != KeyEnter ==> InputKept() && forall n | n in root.repr :: n.color == old(n.color)
      ensures key == KeyEnter ==> !cmdInputIsOn && !inputShown && focus == TreeView && cmdText == ""
      ensures key == KeyEnter && old(cmdInputIsOn) && old(cmdInputPurpose) == PurposeSearch ==>
        Highlight.Highlighted(root, old(cmdText))
      ensures !(key == KeyEnter && old(cmdInputIsOn) && old(cmdInputPurpose) == PurposeSearch) ==>
        forall n | n in root.repr :: n.color == old(n.color)
    {
      if key == KeyEnter {
        if cmdInputIsOn && cmdInputPurpose == PurposeSearch {
          Highlight.HighlightMatchingNodes(root, cmdText);
        }
        CloseInput();
      }
    }

    /** The end of Enter: clear, close and hide the input and focus the
        tree view. */
    method CloseInput()
      modifies this`cmdText, this`cmdInputIsOn, this`inputShown, this`focus
      ensures !cmdInputIsOn && !inputShown && focus == TreeView && cmdText == ""
    {
      cmdText := "";
      cmdInputIsOn := false;
      inputShown := false;
      focus := TreeView;
    }
  }
}
