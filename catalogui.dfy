/** The event handlers of main.go and of RunApp in pkg/apidocs/ui.go, which
    are closures over a navigation stack. Their Select and Escape are the
    same text in both files; the changed handlers differ. getReference ends
    the process when a node holds no TreeData, which `exited` records. */
module CatalogUI {
  import opened Kube
  import opened GoStrings
  import opened TView
  import opened Views
  import TreeDataOps
  import LegacyTreeData
  import LegacyNavigator
  import Navigator

  class Handlers {
    /** The tree the catalog loop built. */
    const root: TreeNode
    /** main.go: the explainer registered for each path, by its resource. */
    const pathExplainers: map<string, GVR>
    /** main.go: what Explain writes for a resource and path; its error is
        not looked at. */
    const explainText: (GVR, string) -> string
    /** RunApp: the explainer behind the OpenAPI client. */
    const explain: (GVR, string) -> Result<string>

    var viewRoot: TreeNode
    var current: TreeNode
    var stack: seq<TreeNode>
    var details: string
    var focus: Focus
    /** The process ended in log.Fatalf. */
    var exited: bool

    ghost predicate Valid()
      reads this`stack, root`children, root`repr, root.repr`children, root.repr`repr
      reads (set i | 0 <= i < |stack| :: stack[i])`reference
      reads (set i | 0 <= i < |stack| && stack[i].reference.Data? :: stack[i].reference.data)`inPreview
    {
      root.Valid() && TreeDataOps.PreviewStack(stack, root)
    }

    /** The stack and the tree view are as they were. */
    twostate predicate ViewKept()
      reads this
    {
      stack == old(stack) && viewRoot == old(viewRoot) && current == old(current)
    }

    /** The handlers start with the root on the stack, shown and current. */
    constructor (root: TreeNode, pathExplainers: map<string, GVR>, explainText: (GVR, string) -> string,
                 explain: (GVR, string) -> Result<string>)
      requires root.Valid()
      ensures Valid()
      ensures this.root == root && this.pathExplainers == pathExplainers
      ensures this.explainText == explainText && this.explain == explain
      ensures stack == [root] && viewRoot == root && current == root
      ensures details == "" && focus == TreeView && !exited
    {
      this.root := root;
      this.pathExplainers := pathExplainers;
      this.explainText := explainText;
      this.explain := explain;
      viewRoot := root;
      current := root;
      stack := [root];
      details := "";
      focus := TreeView;
      exited := false;
    }

    /** What Select leaves behind on a node holding `d`: a Group or
        Resource not in preview is put in preview, pushed, shown as the
        root, made current and expanded; any other node toggles itself. */
    twostate predicate SelectDone(node: TreeNode, d: TreeData)
      reads this, node, d
    {
      if LegacyNavigator.Opens(d.nodeType, old(d.inPreview)) then
        && d.inPreview && stack == old(stack) + [node] && viewRoot == node && current == node
        && node.expanded
      else
        && stack == old(stack) && viewRoot == old(viewRoot) && current == old(current)
        && d.inPreview == old(d.inPreview) && node.expanded == !old(node.expanded)
    }

    /** The selected handler: nothing for a nil node; the end of the
        process for a node without TreeData; otherwise SelectDone. */
    method Select(node: TreeNode?)
      requires Valid()
      modifies this`stack, this`viewRoot, this`current, this`exited
      modifies LegacyNavigator.Self(node)`expanded, Navigator.Behind(node)`inPreview
      ensures Valid()
      ensures exited == (old(exited) || (node != null && !node.reference.Data?))
      ensures node == null || !node.reference.Data? ==> ViewKept()
      ensures node != null && !node.reference.Data? ==> node.expanded == old(node.expanded)
      ensures node != null && node.reference.Data? ==> SelectDone(node, node.reference.data)
    {
      if node == null {
        return;
      }
      var data := LegacyTreeData.GetReference(node);
      if data.None? {
        exited := true;
        return;
      }
      SelectData(node, data.value);
    }

    /** Select on a node holding the TreeData `d`. */
    method SelectData(node: TreeNode, d: TreeData)
      requires Valid() && node.reference == Data(d)
      modifies this`stack, this`viewRoot, this`current, node`expanded, d`inPreview
      ensures Valid() && SelectDone(node, d)
    {
      if (d.nodeType == GroupType || d.nodeType == ResourceType) && !d.inPreview {
        Preview(node, d);
      } else {
        node.expanded := !node.expanded;
      }
    }

    /** Select on a Group or Resource not in preview; setInPreview cannot
        end the process, the node holds `d`. */
    method Preview(node: TreeNode, d: TreeData)
      requires Valid() && node.reference == Data(d) && LegacyNavigator.Opens(d.nodeType, d.inPreview)
      modifies this`stack, this`viewRoot, this`current, node`expanded, d`inPreview
      ensures Valid() && SelectDone(node, d)
    {
      assert forall i | 1 <= i < |stack| :: stack[i].reference.data != d;
      var gone := LegacyTreeData.SetInPreview(node, true);
      if gone {
        assert false;
      }
      Push(node, d);
    }

    /** The rest of Preview once the node is in preview. */
    method Push(node: TreeNode, d: TreeData)
      requires root.Valid()
      requires |stack| >= 1 && stack[0] == root && node.reference == Data(d) && d.inPreview
      requires forall i | 1 <= i < |stack| :: stack[i].reference.Data? && stack[i].reference.data.inPreview
      requires forall i, j | 1 <= i < j < |stack| :: stack[i].reference.data != stack[j].reference.data
      requires forall i | 1 <= i < |stack| :: stack[i].reference.data != d
      modifies this`stack, this`viewRoot, this`current, node`expanded
      ensures Valid()
      ensures stack == old(stack) + [node] && viewRoot == node && current == node && node.expanded
    {
      stack := stack + [node];
      viewRoot := node;
      current := node;
      node.expanded := true;
    }

    /** Tab in the tree view gives the focus to the details view. */
    method TreeTab()
      modifies this`focus
      ensures focus == DetailsView
    {
      focus := DetailsView;
    }

    /** Tab in the details view gives the focus back to the tree view. */
    method DetailsTab()
      modifies this`focus
      ensures focus == TreeView
    {
      focus := TreeView;
    }

    /** The top of the stack. */
    ghost function Top(): TreeNode
      requires |stack| >= 1
      reads this`stack
    {
      stack[|stack| - 1]
    }

    /** The Escape key handler: consumed exactly when the stack holds more
        than the root; then the top leaves preview (its expanded flag is
        kept), is popped and made current, and the new top is shown as the
        root. Otherwise nothing changes. */
    method Escape() returns (consumed: bool)
      requires Valid()
      modifies this`stack, this`viewRoot, this`current, TreeDataOps.DataBehind(Top())`inPreview
      ensures Valid()
      ensures consumed <==> old(|stack|) > 1
      ensures consumed ==>
        && stack == old(stack[..|stack| - 1]) && viewRoot == stack[|stack| - 1] && current == old(Top())
        && !old(Top().reference.data).inPreview
      ensures !consumed ==> ViewKept() && forall d | d in old(TreeDataOps.DataBehind(Top())) :: d.inPreview == old(d.inPreview)
    {
      if |stack| <= 1 {
        return false;
      }
      var cur := stack[|stack| - 1];
      assert forall i | 1 <= i < |stack| - 1 :: stack[i].reference.data != cur.reference.data;
      var gone := LegacyTreeData.SetInPreview(cur, false);
      if gone {
        assert false;
      }
      Drop(cur);
      return true;
    }

    /** The pop of Escape. */
    method Drop(cur: TreeNode)
      requires root.Valid()
      requires |stack| > 1 && stack[0] == root
      requires forall i | 1 <= i < |stack| - 1 :: stack[i].reference.Data? && stack[i].reference.data.inPreview
      requires forall i, j | 1 <= i < j < |stack| - 1 :: stack[i].reference.data != stack[j].reference.data
      modifies this`stack, this`viewRoot, this`current
      ensures Valid()
      ensures stack == old(stack[..|stack| - 1]) && viewRoot == stack[|stack| - 1] && current == cur
    {
      stack := stack[..|stack| - 1];
      viewRoot := stack[|stack| - 1];
      current := cur;
    }

    /** The changed handler of main.go: the node's path, and for a Field or
        Resource with an explainer registered for its path that explainer's
        text below it. A node without TreeData ends the process. */
    method ChangedMain(node: TreeNode?)
      modifies this`details, this`exited
      ensures exited == (old(exited) || (node != null && !node.reference.Data?))
      ensures node == null || !node.reference.Data? ==> details == old(details)
      ensures node != null && node.reference.Data? ==>
        details == RegisteredDetails(pathExplainers, explainText, node.reference.data.nodeType, node.reference.data.path)
    {
      if node == null {
        return;
      }
      var data := LegacyTreeData.GetReference(node);
      if data.None? {
        exited := true;
        return;
      }
      var d := data.value;
      details := d.path;
      if d.nodeType == FieldType || d.nodeType == ResourceType {
        if d.path in pathExplainers {
          var explainer := pathExplainers[d.path];
          details := Navigator.Explained(d.path, explainText(explainer, d.path));
        }
      }
    }

    /** The changed handler of RunApp: the node's path, and for a Field or
        Resource the explanation below it when the explainer gives one. The
        explainer needs the node's resource, so such a node must carry one.
        A node without TreeData ends the process. */
    method ChangedRunApp(node: TreeNode?)
      requires node != null && node.reference.Data? ==>
        var d := node.reference.data; d.nodeType == FieldType || d.nodeType == ResourceType ==> d.gvr.Some?
      modifies this`details, this`exited
      ensures exited == (old(exited) || (node != null && !node.reference.Data?))
      ensures node == null || !node.reference.Data? ==> details == old(details)
      ensures node != null && node.reference.Data? ==>
        var d := node.reference.data;
        details == LegacyNavigator.ExplainedDetails(explain, d.nodeType, d.path, d.gvr)
    {
      if node == null {
        return;
      }
      var data := LegacyTreeData.GetReference(node);
      if data.None? {
        exited := true;
        return;
      }
      var d := data.value;
      details := d.path;
      if d.nodeType == FieldType || d.nodeType == ResourceType {
        var text := explain(d.gvr.value, d.path);
        if text.Ok? {
          details := Navigator.Explained(d.path, text.value);
        }
      }
    }
  }

  /** The details text of main.go's changed handler for a node of type `t`
      at `path`: the path, with the registered explainer's text below it
      for a Field or Resource whose path has one. */
  function RegisteredDetails(pathExplainers: map<string, GVR>, explainText: (GVR, string) -> string,
                             t: NodeType, path: string): (r: string)
    ensures IsPrefix(path, r)
    ensures r != path <==> (t == FieldType || t == ResourceType) && path in pathExplainers
    ensures (t == FieldType || t == ResourceType) && path in pathExplainers ==>
      r == Navigator.Explained(path, explainText(pathExplainers[path], path))
  {
    if (t == FieldType || t == ResourceType) && path in pathExplainers then
      Navigator.Explained(path, explainText(pathExplainers[path], path))
    else path
  }
}
