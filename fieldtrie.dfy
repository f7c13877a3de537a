/** The field-path trie of pkg/apidocs (ResourceFieldsNode) and of main.go
    (Node, whose OriginalPath is the same field as Path here): dotted paths
    such as `pods.metadata.name` become chains of nodes, each node keyed by
    its name in its parent's children and holding the full prefix path.

    As ghost state every node knows the keys leading to it from the root
    and the root knows every node of its trie. */
module FieldTrie {
  import opened GoStrings

  /** The first i + 1 elements are the first i and then the next one. */
  lemma PrefixStep<T>(s: seq<T>, i: nat)
    requires i < |s|
    ensures s[..i + 1] == s[..i] + [s[i]]
  {
  }

  /** Two maps with the same keys and the same values are equal. */
  lemma SameMap<K, V>(m: map<K, V>, n: map<K, V>)
    requires m.Keys <= n.Keys
    requires forall k | k in n :: k in m && m[k] == n[k]
    ensures m == n
  {
  }

  /** The key that follows `chain` in `parts`, if any. */
  function NextKey(chain: seq<string>, parts: seq<string>): set<string>
  {
    if |chain| < |parts| then {parts[|chain|]} else {}
  }

  /** What a snapshot records of a node. */
  datatype Seen = Seen(name: string, path: string, children: map<string, ResourceFieldsNode>)

  class ResourceFieldsNode {
    var name: string
    var children: map<string, ResourceFieldsNode>
    var path: string
    /** The keys from the root of the trie to this node. */
    ghost var chain: seq<string>
    /** On a root: every node of its trie. */
    ghost var nodes: set<ResourceFieldsNode>
    /** On a root, while a path is being added: every node as it was before. */
    ghost var before: map<ResourceFieldsNode, Seen>

    /** NewResourceFieldsNode: no name, no path, and an empty (non-nil)
        map of children. */
    constructor ()
      ensures name == "" && path == "" && children == map[]
      ensures Valid() && nodes == {this}
    {
      name := "";
      path := "";
      children := map[];
      chain := [];
      before := map[];
      new;
      nodes := {this};
    }

    /** NewResourceFieldsNode followed by setting the name: the node added
        under key `name` below a node whose chain is `above`. */
    constructor Child(name: string, ghost above: seq<string>)
      ensures this.name == name && path == "" && children == map[]
      ensures chain == above + [name] && nodes == {this}
    {
      this.name := name;
      path := "";
      children := map[];
      chain := above + [name];
      before := map[];
      new;
      nodes := {this};
    }

    /** `&ResourceFieldsNode{Name: name}`, the root built by the catalog
        loop (its nil map of children behaves as an empty one). */
    constructor Root(name: string)
      ensures this.name == name && path == "" && children == map[]
      ensures Valid() && nodes == {this}
    {
      this.name := name;
      path := "";
      children := map[];
      chain := [];
      before := map[];
      new;
      nodes := {this};
    }

    /** The child of `n` under `k` belongs to the trie, is one key further
        from the root, is named by its key, and its path, once set, is the
        full path. */
    ghost predicate ChildOk(n: ResourceFieldsNode, k: string)
      requires n in nodes && k in n.children
      reads this`nodes, nodes`children, nodes`chain, nodes`name, nodes`path
    {
      var c := n.children[k];
      && c in nodes
      && c.chain == n.chain + [k]
      && c.name == k
      && (c.path == "" || c.path == Join(c.chain, "."))
    }

    /** The trie rooted here: `nodes` holds the root and is closed under
        children, and every child is well formed. */
    ghost predicate Valid()
      reads this`nodes, nodes`children, nodes`chain, nodes`name, nodes`path
    {
      && this in nodes
      && chain == []
      && (forall n, k {:trigger ChildOk(n, k)} | n in nodes && k in n.children :: ChildOk(n, k))
    }

    /** The missing child `part` of `current`, created empty and linked in. */
    method AddChild(current: ResourceFieldsNode, part: string) returns (child: ResourceFieldsNode)
      requires Valid() && current in nodes && part !in current.children
      modifies this, current
      ensures Valid()
      ensures fresh(child) && nodes == old(nodes) + {child}
      ensures current.children == old(current.children)[part := child]
      ensures child.chain == current.chain + [part] && child.name == part && child.path == "" && child.children == map[]
      ensures name == old(name) && path == old(path) && chain == old(chain) && before == old(before)
      ensures current.name == old(current.name) && current.path == old(current.path) && current.chain == old(current.chain)
      ensures current != this ==> children == old(children)
    {
      child := new ResourceFieldsNode.Child(part, current.chain);
      current.children := current.children[part := child];
      nodes := nodes + {child};
      forall n, k | n in nodes && k in n.children ensures ChildOk(n, k) {
        if n != child && (n != current || k != part) {
          assert old(ChildOk(n, k));
        }
      }
    }

    /** The body of AddPath's loop: make sure `current` has a child under
        `part`, give that child `path` if it has none yet, and go to it. */
    method Descend(current: ResourceFieldsNode, part: string, path: string) returns (next: ResourceFieldsNode)
      requires Valid() && current in nodes
      requires path == Join(current.chain + [part], ".")
      modifies nodes
      ensures Valid()
      ensures old(nodes) <= nodes <= old(nodes) + {next} && fresh(nodes - old(nodes))
      ensures next !in old(nodes) ==> next.children == map[]
      ensures next in nodes && part in current.children && current.children[part] == next
      ensures next.name == part && next.path == path && next.chain == current.chain + [part]
      ensures current.children == old(current.children)[part := next]
      ensures part in old(current.children) ==> next == old(current.children[part])
      ensures before == old(before)
      ensures forall n | n in old(nodes) :: n.name == old(n.name)
      ensures forall n | n in old(nodes) :: n.chain == old(n.chain)
      ensures forall n | n in old(nodes) && (n != next || old(n.path) != "") :: n.path == old(n.path)
      ensures forall n | n in old(nodes) && n != current :: n.children == old(n.children)
      ensures part in old(current.children) && old(current.children[part].path) != "" ==>
        nodes == old(nodes) && forall n :: n in nodes ==> n.children == old(n.children) && n.path == old(n.path)
    {
      if part !in current.children {
        var child := AddChild(current, part);
      }
      next := current.children[part];
      assert ChildOk(current, part);
      if next.path == "" {
        label Found:
        next.path := path;
        forall n, k | n in nodes && k in n.children ensures ChildOk(n, k) {
          assert old@Found(ChildOk(n, k));
        }
      }
    }

    /** `line` is a chain of nodes of the trie from this root down the
        first |line| - 1 keys of `parts`, each named by its key and holding
        the path of the keys so far. */
    ghost predicate Spine(line: seq<ResourceFieldsNode>, parts: seq<string>)
      reads this, nodes
    {
      && 1 <= |line| <= |parts| + 1 && line[0] == this
      && (forall j :: 0 <= j < |line| ==> line[j] in nodes && |line[j].chain| == j)
      && (forall j {:trigger line[j].children} :: 0 <= j < |line| - 1 ==>
            parts[j] in line[j].children && line[j].children[parts[j]] == line[j + 1])
      && (forall j {:trigger line[j].path} :: 1 <= j < |line| ==> line[j].path == Join(parts[..j], "."))
      && (forall j {:trigger line[j].name} :: 1 <= j < |line| ==> line[j].name == parts[j - 1])
    }

    /** A step of Descend from the last node of the spine extends it. */
    twostate lemma SpineStep(new line: seq<ResourceFieldsNode>, parts: seq<string>, new next: ResourceFieldsNode)
      requires forall j | 0 <= j < |line| :: old(allocated(line[j]))
      requires old(Spine(line, parts)) && |line| <= |parts|
      requires old(nodes) <= nodes && next in nodes && |next.chain| == |line|
      requires parts[|line| - 1] in line[|line| - 1].children && line[|line| - 1].children[parts[|line| - 1]] == next
      requires next.name == parts[|line| - 1] && next.path == Join(parts[..|line|], ".")
      requires forall n | n in old(nodes) :: n.name == old(n.name)
      requires forall n | n in old(nodes) :: n.chain == old(n.chain)
      requires forall n | n in old(nodes) && n != next :: n.path == old(n.path)
      requires forall n | n in old(nodes) && n != line[|line| - 1] :: n.children == old(n.children)
      ensures Spine(line + [next], parts)
    {
      var l := line + [next];
      var last := |line| - 1;
      forall j | 0 <= j < |line| ensures l[j] == line[j] && line[j] in old(nodes) && line[j] != next && |line[j].chain| == j {
        assert old(line[j] in nodes && |line[j].chain| == j);
      }
      forall j | 0 <= j < |l| ensures l[j] in nodes && |l[j].chain| == j {
      }
      forall j {:trigger l[j].children} | 0 <= j < |l| - 1 ensures parts[j] in l[j].children && l[j].children[parts[j]] == l[j + 1] {
        if j < last {
          assert old(parts[j] in line[j].children && line[j].children[parts[j]] == line[j + 1]);
          assert line[j] != line[last] by { assert |line[last].chain| == last; }
        }
      }
      forall j {:trigger l[j].path} | 1 <= j < |l| ensures l[j].path == Join(parts[..j], ".") {
        if j < |line| {
          assert old(line[j].path == Join(parts[..j], "."));
        }
      }
      forall j {:trigger l[j].name} | 1 <= j < |l| ensures l[j].name == parts[j - 1] {
        if j < |line| {
          assert old(line[j].name == parts[j - 1]);
        }
      }
    }

    /** Records every node's name, path and children as they are now. */
    ghost method Snapshot()
      requires Valid()
      modifies this
      ensures Valid() && before == map n | n in nodes :: Seen(n.name, n.path, n.children)
      ensures name == old(name) && path == old(path) && children == old(children)
      ensures chain == old(chain) && nodes == old(nodes)
    {
      before := map n | n in nodes :: Seen(n.name, n.path, n.children);
      forall n, k | n in nodes && k in n.children ensures ChildOk(n, k) {
        assert old(ChildOk(n, k));
      }
    }

    /** Since the snapshot, while walking `line` down `parts`: names are
        kept, a path once set stays, no child is lost or replaced, nodes off
        the line are untouched, every new node lies on the line, and a node
        has gained at most the key that follows its chain in `parts`. */
    ghost predicate Since(line: seq<ResourceFieldsNode>, parts: seq<string>)
      reads this, nodes
    {
      && before.Keys <= nodes
      && (forall n | n in nodes && n !in before :: n in line)
      && (forall n | n in before :: n.name == before[n].name)
      && (this in before ==> path == before[this].path)
      && (forall n | n in before && before[n].path != "" :: n.path == before[n].path)
      && (forall n, k | n in before && k in before[n].children :: k in n.children && n.children[k] == before[n].children[k])
      && (forall n | n in before && n !in line :: n.children == before[n].children && n.path == before[n].path)
      && (forall n | n in nodes :: n.children.Keys <= (if n in before then before[n].children.Keys else {}) + NextKey(n.chain, parts))
    }

    /** A step of Descend from the last node of the line keeps Since. */
    twostate lemma SinceStep(new line: seq<ResourceFieldsNode>, parts: seq<string>, new next: ResourceFieldsNode)
      requires forall j | 0 <= j < |line| :: old(allocated(line[j]))
      requires 1 <= |line| <= |parts| && old(Since(line, parts)) && before == old(before)
      requires line[|line| - 1] in old(nodes) && |line[|line| - 1].chain| == |line| - 1
      requires chain == [] && |next.chain| == |line|
      requires old(nodes) <= nodes <= old(nodes) + {next}
      requires next !in old(nodes) ==> next.children == map[]
      requires line[|line| - 1].children == old(line[|line| - 1].children)[parts[|line| - 1] := next]
      requires parts[|line| - 1] in old(line[|line| - 1].children) ==> next == old(line[|line| - 1].children[parts[|line| - 1]])
      requires forall n | n in old(nodes) :: n.name == old(n.name)
      requires forall n | n in old(nodes) :: n.chain == old(n.chain)
      requires forall n | n in old(nodes) && (n != next || old(n.path) != "") :: n.path == old(n.path)
      requires forall n | n in old(nodes) && n != line[|line| - 1] :: n.children == old(n.children)
      ensures Since(line + [next], parts)
    {
      var l := line + [next];
      var current := line[|line| - 1];
      forall n | n in nodes && n !in before ensures n in l {
        if n in old(nodes) {
          assert n in line;
        }
      }
      forall n | n in before ensures n.name == before[n].name {
        assert old(n.name == before[n].name);
      }
      forall n | n in before && before[n].path != "" ensures n.path == before[n].path {
        assert old(n.path == before[n].path);
      }
      forall n, k | n in before && k in before[n].children ensures k in n.children && n.children[k] == before[n].children[k] {
        assert old(k in n.children && n.children[k] == before[n].children[k]);
      }
      forall n | n in before && n !in l ensures n.children == before[n].children && n.path == before[n].path {
        assert n !in line;
        assert old(n.children == before[n].children && n.path == before[n].path);
      }
      forall n | n in nodes
        ensures n.children.Keys <= (if n in before then before[n].children.Keys else {}) + NextKey(n.chain, parts)
      {
        if n in old(nodes) {
          assert old(n.children.Keys <= (if n in before then before[n].children.Keys else {}) + NextKey(n.chain, parts));
        }
      }
    }

    /** One turn of AddPath's loop: descend from the last node of the line
        by the next key. */
    method Step(current: ResourceFieldsNode, ghost line: seq<ResourceFieldsNode>, parts: seq<string>, i: nat)
      returns (next: ResourceFieldsNode)
      requires Valid() && Spine(line, parts) && Since(line, parts)
      requires |line| == i + 1 <= |parts| && line[i] == current && current.chain == parts[..i]
      modifies nodes
      ensures Valid() && Spine(line + [next], parts) && Since(line + [next], parts)
      ensures next.chain == parts[..|line|]
      ensures old(nodes) <= nodes && fresh(nodes - old(nodes))
      ensures before == old(before)
    {
      PrefixStep(parts, i);
      next := Descend(current, parts[i], Join(parts[..i + 1], "."));
      SpineStep(line, parts, next);
      SinceStep(line, parts, next);
    }

    /** What adding path `p` does, `line` being the chain walked: only new
        nodes join the trie, all of them on the line; the line spells the
        dot-separated parts of `p`, each node on it named by its part and
        holding the path so far; names never change and a path once set
        stays, and the root's own path never changes; no child is lost or
        replaced; nodes off the line are untouched; and a node gains at
        most the part that follows its own chain. */
    twostate predicate Added(p: string, new line: seq<ResourceFieldsNode>)
      reads this, nodes
    {
      var parts := Split(p, '.');
      && old(nodes) <= nodes && fresh(nodes - old(nodes))
      && |line| == |parts| + 1 && Spine(line, parts)
      && (forall n | n in nodes && n !in old(nodes) :: n in line)
      && (forall n | n in old(nodes) :: n.name == old(n.name))
      && path == old(path)
      && (forall n | n in old(nodes) && old(n.path) != "" :: n.path == old(n.path))
      && (forall n, k | n in old(nodes) && k in old(n.children) :: k in n.children && n.children[k] == old(n.children[k]))
      && (forall n | n in old(nodes) && n !in line :: n.children == old(n.children) && n.path == old(n.path))
      && (forall n | n in nodes ::
            n.children.Keys <= (if n in old(nodes) then old(n.children.Keys) else {}) + NextKey(n.chain, parts))
    }

    /** AddPath: split the path on dots and walk down from this node,
        creating each missing child and giving a node its path the first
        time it is reached with an empty one. `line` is the chain walked. */
    method AddPath(p: string) returns (ghost line: seq<ResourceFieldsNode>)
      requires Valid()
      modifies nodes
      ensures Valid() && Added(p, line)
    {
      var parts := Split(p, '.');
      Snapshot();
      var current := this;
      line := [this];
      for i := 0 to |parts|
        invariant Valid()
        invariant |line| == i + 1 && line[i] == current && current.chain == parts[..i]
        invariant Spine(line, parts) && Since(line, parts)
        invariant old(nodes) <= nodes && fresh(nodes - old(nodes))
        invariant before.Keys == old(nodes)
        invariant forall n | n in old(nodes) :: before[n] == Seen(old(n.name), old(n.path), old(n.children))
      {
        current := Step(current, line, parts, i);
        line := line + [current];
      }
    }

    /** Two walks down the same keys from the same root, where no child
        seen by the first walk has been lost or replaced since, meet the same
        nodes. */
    twostate lemma SameLine(parts: seq<string>, new line: seq<ResourceFieldsNode>, new again: seq<ResourceFieldsNode>)
      requires forall j | 0 <= j < |line| :: old(allocated(line[j]))
      requires |line| == |again| == |parts| + 1 && line[0] == again[0]
      requires forall j | 0 <= j < |parts| :: line[j] in old(nodes)
      requires forall j {:trigger old(line[j].children)} | 0 <= j < |parts| ::
        old(parts[j] in line[j].children && line[j].children[parts[j]] == line[j + 1])
      requires forall n, k | n in old(nodes) && k in old(n.children) :: k in n.children && n.children[k] == old(n.children[k])
      requires forall j {:trigger again[j].children} | 0 <= j < |parts| ::
        parts[j] in again[j].children && again[j].children[parts[j]] == again[j + 1]
      ensures again == line
    {
      for j := 0 to |parts|
        invariant forall i | 0 <= i <= j :: again[i] == line[i]
      {
        var n, k := line[j], parts[j];
        assert old(k in n.children && n.children[k] == line[j + 1]);
        assert again[j].children[k] == again[j + 1];
      }
    }

    /** Along a walk that meets the same nodes as an earlier one, every
        path is what it was: the root's is untouched and every other node
        holds the path of the keys so far both times. */
    twostate lemma LinePathsKept(parts: seq<string>, new line: seq<ResourceFieldsNode>)
      requires forall j | 0 <= j < |line| :: old(allocated(line[j]))
      requires 1 <= |line| <= |parts| + 1 && line[0].path == old(line[0].path)
      requires forall j {:trigger old(line[j].path)} | 1 <= j < |line| :: old(line[j].path == Join(parts[..j], "."))
      requires forall j {:trigger line[j].path} | 1 <= j < |line| :: line[j].path == Join(parts[..j], ".")
      ensures forall n | n in line :: n.path == old(n.path)
    {
      forall n | n in line ensures n.path == old(n.path) {
        var j :| 0 <= j < |line| && line[j] == n;
        if j > 0 {
          var prefix := Join(parts[..j], ".");
          assert old(line[j].path) == prefix;
          assert line[j].path == prefix;
        }
      }
    }

    /** Along a walk down `parts` whose links existed before, where no child
        has been lost or replaced and a node at depth j has gained at most
        key parts[j], every node's children are what they were. */
    twostate lemma LineChildrenKept(parts: seq<string>, new line: seq<ResourceFieldsNode>)
      requires forall j | 0 <= j < |line| :: old(allocated(line[j]))
      requires |line| == |parts| + 1
      requires forall j | 0 <= j < |line| :: line[j] in old(nodes) && |line[j].chain| == j
      requires forall j {:trigger old(line[j].children)} | 0 <= j < |line| - 1 ::
        old(parts[j] in line[j].children && line[j].children[parts[j]] == line[j + 1])
      requires forall n, k | n in old(nodes) && k in old(n.children) :: k in n.children && n.children[k] == old(n.children[k])
      requires forall n | n in nodes ::
        n.children.Keys <= (if n in old(nodes) then old(n.children.Keys) else {}) + NextKey(n.chain, parts)
      requires old(nodes) <= nodes
      ensures forall n | n in line :: n.children == old(n.children)
    {
      forall n | n in line ensures n.children == old(n.children) {
        var j :| 0 <= j < |line| && line[j] == n;
        var was := old(n.children);
        assert n.children.Keys <= was.Keys + NextKey(n.chain, parts);
        if j < |parts| {
          assert old(parts[j] in line[j].children);
          assert NextKey(n.chain, parts) == {parts[j]};
        }
        assert n.children.Keys <= was.Keys;
        SameMap(n.children, was);
      }
    }

    /** AddPath is idempotent: when the trie already holds the chain for
        `p` (as a first AddPath(p) leaves it), adding `p` again walks the
        same chain and changes no name, path or child and adds no node. */
    twostate lemma AddPathIdempotent(p: string, new line: seq<ResourceFieldsNode>, new again: seq<ResourceFieldsNode>)
      requires forall j | 0 <= j < |line| :: old(allocated(line[j]))
      requires old(|line| == |Split(p, '.')| + 1 && Spine(line, Split(p, '.')))
      requires Added(p, again)
      ensures again == line && nodes == old(nodes)
      ensures forall n | n in nodes :: n.name == old(n.name) && n.path == old(n.path) && n.children == old(n.children)
    {
      var parts := Split(p, '.');
      forall j | 0 <= j < |line| ensures line[j] in old(nodes) {
        assert old(line[j] in nodes);
      }
      SameLine(parts, line, again);
      assert forall n | n in again :: n in old(nodes);
      LinePathsKept(parts, line);
      LineChildrenKept(parts, line);
    }

    /** No node of the trie is lost, and no child is lost or replaced. */
    twostate predicate ChildrenKept()
      reads this, nodes
    {
      && old(nodes) <= nodes
      && (forall n, k | n in old(nodes) && k in old(n.children) :: k in n.children && n.children[k] == old(n.children[k]))
    }

    /** The node reached from this root by the keys `cs`, or null when a
        key is missing on the way. */
    ghost function Follow(cs: seq<string>): (r: ResourceFieldsNode?)
      requires Valid()
      reads this`nodes, nodes`children, nodes`chain, nodes`name, nodes`path
      ensures r != null ==> r in nodes && r.chain == cs
      decreases |cs|
    {
      if cs == [] then this
      else
        var m := Follow(cs[..|cs| - 1]);
        var k := cs[|cs| - 1];
        if m != null && k in m.children then
          assert ChildOk(m, k) && cs == cs[..|cs| - 1] + [k];
          m.children[k]
        else null
    }

    /** Every prefix of keys that lead somewhere leads somewhere. */
    lemma {:induction false} FollowPrefix(cs: seq<string>, j: nat)
      requires Valid() && Follow(cs) != null && j <= |cs|
      ensures Follow(cs[..j]) != null
      decreases |cs|
    {
      if j < |cs| {
        FollowPrefix(cs[..|cs| - 1], j);
        assert cs[..|cs| - 1][..j] == cs[..j];
      } else {
        assert cs[..j] == cs;
      }
    }

    /** Where no child has been lost or replaced, keys that led to a node
        still lead to it. */
    twostate lemma {:induction false} FollowKept(cs: seq<string>)
      requires old(Valid()) && Valid() && old(Follow(cs)) != null
      requires ChildrenKept()
      ensures Follow(cs) == old(Follow(cs))
      decreases |cs|
    {
      if cs != [] {
        FollowKept(cs[..|cs| - 1]);
      }
    }

    /** The nodes of a spine are those its keys lead to. */
    lemma {:induction false} SpineFollow(line: seq<ResourceFieldsNode>, parts: seq<string>, j: nat)
      requires Valid() && Spine(line, parts) && j < |line|
      ensures Follow(parts[..j]) == line[j]
      decreases j
    {
      if j > 0 {
        SpineFollow(line, parts, j - 1);
        assert parts[..j][..j - 1] == parts[..j - 1];
        assert line[j - 1].children[parts[j - 1]] == line[j];
      }
    }

    /** The keys `cs` begin the parts of some path of `ps`. */
    static ghost predicate OnSomePath(cs: seq<string>, ps: seq<string>)
    {
      exists p | p in ps :: Begins(cs, p)
    }

    /** The keys `cs` begin the dot-separated parts of `p`. */
    static ghost predicate Begins(cs: seq<string>, p: string)
    {
      cs <= Split(p, '.')
    }

    /** The trie as adding every path of `ps` leaves it: each node is the
        one its keys lead to from this root and holds the dotted path of
        those keys, the parts of every path lead somewhere, and every node
        below the root lies on the parts of some path. */
    ghost predicate Spelled(ps: seq<string>)
      requires Valid()
      reads this`nodes, nodes`children, nodes`chain, nodes`name, nodes`path
    {
      Joined() && Reached(ps) && Covered(ps)
    }

    /** Each node is the one its keys lead to and holds their dotted path. */
    ghost predicate Joined()
      requires Valid()
      reads this`nodes, nodes`children, nodes`chain, nodes`name, nodes`path
    {
      forall n | n in nodes :: Follow(n.chain) == n && n.path == Join(n.chain, ".")
    }

    /** The parts of every path of `ps` lead somewhere. */
    ghost predicate Reached(ps: seq<string>)
      requires Valid()
      reads this`nodes, nodes`children, nodes`chain, nodes`name, nodes`path
    {
      forall p | p in ps :: Follow(Split(p, '.')) != null
    }

    /** Every node below the root lies on the parts of some path of `ps`. */
    ghost predicate Covered(ps: seq<string>)
      reads this`nodes, nodes`chain
    {
      forall n | n in nodes && n.chain != [] :: OnSomePath(n.chain, ps)
    }

    /** A new root is spelled by no paths. */
    lemma SpelledEmpty()
      requires Valid() && nodes == {this} && path == ""
      ensures Spelled([])
    {
      assert Follow([]) == this;
    }

    /** The nodes of a spine are those its keys lead to, and their keys
        are the parts so far. */
    lemma SpineChains(line: seq<ResourceFieldsNode>, parts: seq<string>)
      requires Valid() && Spine(line, parts)
      ensures forall j | 0 <= j < |line| :: Follow(parts[..j]) == line[j] && line[j].chain == parts[..j]
    {
      forall j | 0 <= j < |line| ensures Follow(parts[..j]) == line[j] && line[j].chain == parts[..j] {
        SpineFollow(line, parts, j);
      }
    }

    /** Where no child has been lost or replaced, every node that its keys
        led to keeps its keys and is still led to by them. */
    twostate lemma ChainsKept()
      requires old(Valid()) && Valid()
      requires old(Joined()) && ChildrenKept()
      ensures forall n | n in old(nodes) :: Follow(old(n.chain)) == n && n.chain == old(n.chain)
    {
      forall n | n in old(nodes) ensures Follow(old(n.chain)) == n && n.chain == old(n.chain) {
        assert old(Follow(n.chain)) == n;
        FollowKept(old(n.chain));
      }
    }

    /** Where no child has been lost or replaced, the parts of every path
        that led somewhere still do. */
    twostate lemma PathsKept(ps: seq<string>)
      requires old(Valid()) && Valid()
      requires old(Reached(ps)) && ChildrenKept()
      ensures Reached(ps)
    {
      forall q | q in ps ensures Follow(Split(q, '.')) != null {
        assert old(Follow(Split(q, '.'))) != null;
        FollowKept(Split(q, '.'));
      }
    }

    /** Below the root, the nodes of a full spine are led to by their keys,
        hold the dotted path of those keys, and lie on the parts walked. */
    lemma LineSpelled(line: seq<ResourceFieldsNode>, p: string)
      requires Valid() && Spine(line, Split(p, '.')) && |line| == |Split(p, '.')| + 1
      ensures Follow(Split(p, '.')) != null
      ensures forall j | 1 <= j < |line| ::
        Follow(line[j].chain) == line[j] && line[j].path == Join(line[j].chain, ".") && Begins(line[j].chain, p)
    {
      var parts := Split(p, '.');
      SpineChains(line, parts);
      assert parts[..|parts|] == parts;
    }

    /** Nodes that kept their keys and paths still hold the dotted path of
        their keys. */
    twostate lemma OffLineJoined(kept: set<ResourceFieldsNode>)
      requires kept <= old(nodes) && old(Valid()) && old(Joined())
      requires forall n | n in kept :: n.chain == old(n.chain) && n.path == old(n.path)
      ensures forall n | n in kept :: n.path == Join(n.chain, ".")
    {
      forall n | n in kept
        ensures n.path == Join(n.chain, ".")
      {
        assert old(n.path == Join(n.chain, "."));
      }
    }

    /** Nodes that kept their keys still lie on some path of `ps`. */
    twostate lemma ChainsOnPaths(ps: seq<string>)
      requires old(Covered(ps))
      requires forall n | n in old(nodes) :: n.chain == old(n.chain)
      ensures forall n | n in old(nodes) && n.chain != [] :: OnSomePath(n.chain, ps)
    {
      forall n | n in old(nodes) && n.chain != []
        ensures OnSomePath(n.chain, ps)
      {
        assert old(OnSomePath(n.chain, ps));
      }
    }

    /** The walk of AddPath for `p` as SpelledStep needs it: no node and
        no child is lost or replaced, `line` is a full spine for the parts
        of `p`, every new node is on it, the root's path is kept, and nodes
        off the line keep their paths. */
    twostate predicate Walked(p: string, new line: seq<ResourceFieldsNode>)
      reads this, nodes
    {
      && ChildrenKept()
      && |line| == |Split(p, '.')| + 1 && Spine(line, Split(p, '.'))
      && (forall n | n in nodes :: n in old(nodes) || n in line)
      && path == old(path)
      && (forall n | n in old(nodes) && n !in line :: n.path == old(n.path))
    }

    /** What AddPath promises includes the walk SpelledStep needs. */
    twostate lemma AddedWalked(p: string, new line: seq<ResourceFieldsNode>)
      requires Added(p, line)
      ensures Walked(p, line) && name == old(name) && fresh(nodes - old(nodes))
    {
    }

    /** Adding the last path of `ps` to the trie spelled by the paths
        before it gives the trie spelled by `ps`. */
    twostate lemma SpelledStep(ps: seq<string>, new line: seq<ResourceFieldsNode>)
      requires ps != [] && old(Valid()) && old(Spelled(ps[..|ps| - 1])) && Valid()
      requires Walked(ps[|ps| - 1], line) && path == ""
      ensures Spelled(ps)
    {
      JoinedStep(ps[|ps| - 1], line);
      ReachedStep(ps, line);
      CoveredStep(ps, line);
    }

    /** The walk for `p` keeps every node led to by its keys and holding
        their dotted path. */
    twostate lemma JoinedStep(p: string, new line: seq<ResourceFieldsNode>)
      requires old(Valid()) && old(Joined()) && Valid() && Walked(p, line) && path == ""
      ensures Joined()
    {
      var olds := old(nodes);
      LineSpelled(line, p);
      ChainsKept();
      var kept := set n | n in olds && n !in line;
      OffLineJoined(kept);
      NodesFollowed(line, olds);
    }

    /** After the walk for the last path of `ps`, the parts of every path
        of `ps` lead somewhere. */
    twostate lemma ReachedStep(ps: seq<string>, new line: seq<ResourceFieldsNode>)
      requires ps != [] && old(Valid()) && old(Reached(ps[..|ps| - 1])) && Valid()
      requires Walked(ps[|ps| - 1], line)
      ensures Reached(ps)
    {
      var init, p := ps[..|ps| - 1], ps[|ps| - 1];
      assert ps == init + [p];
      LineSpelled(line, p);
      PathsKept(init);
      ReachedGrows(init, p);
    }

    /** After the walk for the last path of `ps`, every node below the root
        lies on the parts of some path of `ps`. */
    twostate lemma CoveredStep(ps: seq<string>, new line: seq<ResourceFieldsNode>)
      requires ps != [] && old(Valid()) && old(Joined()) && old(Covered(ps[..|ps| - 1])) && Valid()
      requires Walked(ps[|ps| - 1], line)
      ensures Covered(ps)
    {
      var init, p := ps[..|ps| - 1], ps[|ps| - 1];
      assert ps == init + [p];
      LineSpelled(line, p);
      ChainsKept();
      ChainsOnPaths(init);
      NodesOnPaths(init, p, line, old(nodes));
    }

    /** When the parts of every path of `ps` and of `p` lead somewhere, so
        do those of every path of `ps + [p]`. */
    lemma ReachedGrows(ps: seq<string>, p: string)
      requires Valid() && Follow(Split(p, '.')) != null
      requires Reached(ps)
      ensures Reached(ps + [p])
    {
      forall q | q in ps + [p]
        ensures Follow(Split(q, '.')) != null
      {
        if q != p {
          assert q in ps;
        }
      }
    }

    /** Every node is on the line or among `olds`; either way its keys lead
        to it and it holds their dotted path. */
    lemma NodesFollowed(line: seq<ResourceFieldsNode>, olds: set<ResourceFieldsNode>)
      requires Valid() && 1 <= |line| && line[0] == this
      requires forall n | n in nodes :: n in olds || n in line
      requires Follow(chain) == this && path == Join(chain, ".")
      requires forall j | 1 <= j < |line| :: Follow(line[j].chain) == line[j] && line[j].path == Join(line[j].chain, ".")
      requires forall n | n in olds && n !in line :: Follow(n.chain) == n
      requires forall n | n in olds && n !in line :: n.path == Join(n.chain, ".")
      ensures Joined()
    {
      forall n | n in nodes
        ensures Follow(n.chain) == n && n.path == Join(n.chain, ".")
      {
        if n in line {
          var j :| 0 <= j < |line| && line[j] == n;
        }
      }
    }

    /** Every node below the root is on the line walked for `p` or among
        `olds`, which lay on some path of `ps`. */
    lemma NodesOnPaths(ps: seq<string>, p: string, line: seq<ResourceFieldsNode>, olds: set<ResourceFieldsNode>)
      requires 1 <= |line| && line[0] == this && chain == []
      requires forall n | n in nodes :: n in olds || n in line
      requires forall j | 1 <= j < |line| :: Begins(line[j].chain, p)
      requires forall n | n in olds && n.chain != [] :: OnSomePath(n.chain, ps)
      ensures Covered(ps + [p])
    {
      forall n | n in nodes && n.chain != []
        ensures OnSomePath(n.chain, ps + [p])
      {
        if n in line {
          var j :| 0 <= j < |line| && line[j] == n;
        }
        OnSomePathGrows(n.chain, ps, p);
      }
    }

    /** Keys on some path of `ps`, or on `p`, are on some path of `ps + [p]`. */
    static lemma OnSomePathGrows(cs: seq<string>, ps: seq<string>, p: string)
      requires OnSomePath(cs, ps) || Begins(cs, p)
      ensures OnSomePath(cs, ps + [p])
    {
      if Begins(cs, p) {
        assert p in ps + [p];
      } else {
        var q :| q in ps && Begins(cs, q);
        assert q in ps + [p];
      }
    }

    /** AddPath as written on the empty path: strings.Split("", ".") is
        [""], so the root gains one child, named "". */
    static method EmptyPathAddsChild() returns (root: ResourceFieldsNode)
      ensures root.Valid() && root.children.Keys == {""}
    {
      root := new ResourceFieldsNode();
      var line := root.AddPath("");
      assert line[0].children[""] == line[1];
    }

    /** AddPath for callers that may pass an empty path: the empty path adds
        nothing, as the EmptyPath test of fieldnode_test.go expects, and any
        other path is added as AddPath adds it. */
    method AddFieldPath(p: string) returns (ghost line: seq<ResourceFieldsNode>)
      requires Valid()
      modifies nodes
      ensures Valid()
      ensures p == "" ==> nodes == old(nodes) && unchanged(nodes)
      ensures p != "" ==> Added(p, line)
    {
      if p != "" {
        line := AddPath(p);
      } else {
        line := [this];
      }
    }
  }
}
