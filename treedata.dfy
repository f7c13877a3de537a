/** internal/apidocs/treedata.go: reading the TreeData behind a node,
    changing its preview flag, and testing its type. */
module TreeDataOps {
  import opened Kube
  import opened TView

  /** extractTreeData: the TreeData behind the node's reference, or an
      error when the reference holds anything else. */
  function ExtractTreeData(node: TreeNode): (r: Result<TreeData>)
    reads node
    ensures r.Ok? <==> node.reference.Data?
    ensures r.Ok? ==> r.value == node.reference.data
    ensures r.Err? ==> r.error == Failure("unexpected. get-ref failed")
  {
    match node.reference
    case Data(d) => Ok(d)
    case _ => Err(Failure("unexpected. get-ref failed"))
  }

  /** The TreeData objects a node's reference can lead to. */
  function DataBehind(node: TreeNode): set<TreeData>
    reads node
  {
    if node.reference.Data? then {node.reference.data} else {}
  }

  /** setInPreview: when the node holds a TreeData, only its preview flag
      changes (the frame allows nothing else, and the type, path and GVR
      of a TreeData never change once it is built); otherwise the
      extraction error comes back and nothing changes. */
  method SetInPreview(node: TreeNode, inPreview: bool) returns (err: Option<Error>)
    modifies DataBehind(node)`inPreview
    ensures err.None? <==> node.reference.Data?
    ensures err.Some? ==> err == Some(ExtractTreeData(node).error)
    ensures node.reference.Data? ==> node.reference.data.inPreview == inPreview
  {
    var data := ExtractTreeData(node);
    if data.Err? {
      return Some(data.error);
    }
    data.value.inPreview := inPreview;
    err := None;
  }

  /** A navigation stack over the tree at `root`: it starts with the root
      and never empties, and every other entry is a node whose own
      TreeData is in preview, no two sharing one. */
  ghost predicate PreviewStack(stack: seq<TreeNode>, root: TreeNode)
    reads (set i | 0 <= i < |stack| :: stack[i])`reference
    reads (set i | 0 <= i < |stack| && stack[i].reference.Data? :: stack[i].reference.data)`inPreview
  {
    && |stack| >= 1 && stack[0] == root
    && (forall i | 1 <= i < |stack| :: stack[i].reference.Data? && stack[i].reference.data.inPreview)
    && (forall i, j | 1 <= i < j < |stack| :: stack[i].reference.data != stack[j].reference.data)
  }

  /** TreeData.IsNodeType: whether the type is one of `nodeTypes`. */
  method IsNodeType(d: TreeData, nodeTypes: seq<NodeType>) returns (r: bool)
    ensures r <==> d.nodeType in nodeTypes
  {
    for i := 0 to |nodeTypes|
      invariant d.nodeType !in nodeTypes[..i]
    {
      if d.nodeType == nodeTypes[i] {
        return true;
      }
    }
    return false;
  }
}

/** pkg/apidocs/treedata.go (and its twin in main.go): getReference ends the
    process with log.Fatalf when the node holds no TreeData. */
module LegacyTreeData {
  import opened Kube
  import opened TView
  import TreeDataOps

  /** getReference: the stored TreeData, or None where the process exits. */
  function GetReference(node: TreeNode): (r: Option<TreeData>)
    reads node
    ensures r.Some? <==> node.reference.Data?
    ensures r.Some? ==> r.value == node.reference.data
  {
    if node.reference.Data? then Some(node.reference.data) else None
  }

  /** setInPreview: sets the preview flag of the stored TreeData and, by
      its frame, nothing else; `exited` is the log.Fatalf of getReference. */
  method SetInPreview(node: TreeNode, inPreview: bool) returns (exited: bool)
    modifies TreeDataOps.DataBehind(node)`inPreview
    ensures exited <==> !node.reference.Data?
    ensures !exited ==> node.reference.data.inPreview == inPreview
  {
    var data := GetReference(node);
    if data.None? {
      return true;
    }
    data.value.inPreview := inPreview;
    exited := false;
  }
}
