/** The tree of pkg/app/node.go: a Node has a name and a map of children,
    AddPath adds a chain of keys below a node by recursion over the keys,
    and SortChildren rebuilds every children map in sorted key order.

    The nodes are objects; the value a node stands for is a Tree. Each node
    carries its subtree as a ghost footprint, so the subtrees of two
    siblings never share a node. */
module AppTree {
  import opened GoSort

  /** The value of a node: its name and the values of its children. */
  datatype Tree = Tree(name: string, kids: map<string, Tree>)

  /** Every child is named by its key, all the way down. */
  ghost predicate WellNamed(t: Tree)
  {
    forall k | k in t.kids :: t.kids[k].name == k && WellNamed(t.kids[k])
  }

  /** The keys `path` lead from `t` down through existing children. */
  ghost predicate HasChain(t: Tree, path: seq<string>)
    decreases |path|
  {
    |path| == 0 || (path[0] in t.kids && HasChain(t.kids[path[0]], path[1..]))
  }

  /** The tree once `path` is added: the first key's child, created empty
      and named by the key when missing, gets the rest of the path. */
  ghost function Insert(t: Tree, path: seq<string>): (r: Tree)
    decreases |path|
  {
    if |path| == 0 then t
    else
      var key := path[0];
      var child := if key in t.kids then t.kids[key] else Tree(key, map[]);
      Tree(t.name, t.kids[key := Insert(child, path[1..])])
  }

  /** Two maps with the same keys and the same value under each key are equal. */
  lemma SameEntries<K, V>(m: map<K, V>, n: map<K, V>)
    requires m.Keys == n.Keys
    requires forall k | k in m :: m[k] == n[k]
    ensures m == n
  {
  }

  lemma UpdateTwice<K, V>(m: map<K, V>, k: K, a: V, b: V)
    ensures m[k := a][k := b] == m[k := b]
  {
  }

  lemma UpdateSame<K, V>(m: map<K, V>, k: K)
    requires k in m
    ensures m[k := m[k]] == m
  {
  }

  /** One step of Insert, for a non-empty path. */
  lemma InsertUnfold(t: Tree, path: seq<string>)
    requires |path| > 0
    ensures Insert(t, path) == Tree(t.name, t.kids[path[0] := Insert(if path[0] in t.kids then t.kids[path[0]] else Tree(path[0], map[]), path[1..])])
  {
  }

  /** Adding a path is linking the first key's child, then adding the rest
      of the path to that child. */
  lemma InsertCompose(t: Tree, linked: Tree, child: Tree, path: seq<string>)
    requires |path| > 0
    requires child == if path[0] in t.kids then t.kids[path[0]] else Tree(path[0], map[])
    requires linked.kids == t.kids[path[0] := child]
    ensures Tree(t.name, linked.kids[path[0] := Insert(child, path[1..])]) == Insert(t, path)
  {
  }

  /** Adding a path keeps the name, loses no child and touches no child
      but the one under the first key; the empty path changes nothing. */
  lemma InsertShape(t: Tree, path: seq<string>)
    ensures Insert(t, path).name == t.name
    ensures path == [] ==> Insert(t, path) == t
    ensures path != [] ==> Insert(t, path).kids.Keys == t.kids.Keys + {path[0]}
    ensures forall k | k in t.kids && (path == [] || k != path[0]) :: Insert(t, path).kids[k] == t.kids[k]
  {
  }

  /** After AddPath(path) the chain of `path` exists. */
  lemma {:induction false} InsertMakesChain(t: Tree, path: seq<string>)
    ensures HasChain(Insert(t, path), path)
    decreases |path|
  {
    if |path| > 0 {
      var child := if path[0] in t.kids then t.kids[path[0]] else Tree(path[0], map[]);
      InsertMakesChain(child, path[1..]);
    }
  }

  /** Every chain the tree had survives adding a path. */
  lemma {:induction false} InsertKeepsChains(t: Tree, path: seq<string>, q: seq<string>)
    requires HasChain(t, q)
    ensures HasChain(Insert(t, path), q)
    decreases |path|
  {
    if |path| > 0 && |q| > 0 && q[0] == path[0] {
      InsertKeepsChains(t.kids[path[0]], path[1..], q[1..]);
    }
  }

  /** Adding a path creates no chain but its own prefixes. */
  lemma {:induction false} InsertOnlyPrefixes(t: Tree, path: seq<string>, q: seq<string>)
    requires HasChain(Insert(t, path), q)
    ensures HasChain(t, q) || (|q| <= |path| && q == path[..|q|])
    decreases |path|
  {
    if |path| > 0 && |q| > 0 && q[0] == path[0] {
      var child := if path[0] in t.kids then t.kids[path[0]] else Tree(path[0], map[]);
      InsertOnlyPrefixes(child, path[1..], q[1..]);
      if !HasChain(child, q[1..]) {
        assert q == [q[0]] + q[1..];
        assert path[..|q|] == [path[0]] + path[1..][..|q| - 1];
      }
    }
  }

  /** Adding the same path twice is adding it once. */
  lemma {:induction false} InsertIdempotent(t: Tree, path: seq<string>)
    ensures Insert(Insert(t, path), path) == Insert(t, path)
    decreases |path|
  {
    if |path| > 0 {
      var child := if path[0] in t.kids then t.kids[path[0]] else Tree(path[0], map[]);
      InsertIdempotent(child, path[1..]);
    }
  }

  /** A new child is named by its key, so names keep matching keys. */
  lemma {:induction false} InsertWellNamed(t: Tree, path: seq<string>)
    requires WellNamed(t)
    ensures WellNamed(Insert(t, path))
    decreases |path|
  {
    if |path| > 0 {
      var child := if path[0] in t.kids then t.kids[path[0]] else Tree(path[0], map[]);
      InsertWellNamed(child, path[1..]);
      InsertShape(child, path[1..]);
    }
  }

  class Node {
    var name: string
    var children: map<string, Node>
    /** This node and every node below it. */
    ghost var repr: set<Node>

    /** `&Node{Name: name}`: no children (a nil map behaves as an empty one). */
    constructor (name: string)
      ensures Valid() && fresh(repr) && repr == {this}
      ensures View() == Tree(name, map[])
    {
      this.name := name;
      children := map[];
      new;
      repr := {this};
    }

    /** Every child's subtree lies inside this one and not above it, the
        subtrees of two siblings are disjoint, and every child is valid. */
    ghost predicate Valid()
      reads this, repr
      decreases repr
    {
      && this in repr
      && (forall k | k in children ::
            children[k] in repr && children[k].repr <= repr && this !in children[k].repr && children[k].Valid())
      && (forall k1, k2 | k1 in children && k2 in children && k1 != k2 :: children[k1].repr !! children[k2].repr)
    }

    /** The value this node stands for. */
    ghost function View(): Tree
      requires Valid()
      reads this, repr
      decreases repr
    {
      Tree(name, map k | k in children :: children[k].View())
    }

    /** The child under `key`, created empty and named by the key when
        missing; every other child stays as it was. */
    method EnsureChild(key: string) returns (child: Node)
      requires Valid()
      modifies this
      ensures Valid() && fresh(repr - old(repr)) && old(repr) <= repr
      ensures name == old(name) && children.Keys == old(children).Keys + {key}
      ensures forall k | k in old(children) :: children[k] == old(children[k])
      ensures key in children && children[key] == child && child.Valid()
      ensures child.repr <= repr && this !in child.repr
      ensures key !in old(children) ==> fresh(child)
      ensures child.View() == if key in old(View()).kids then old(View()).kids[key] else Tree(key, map[])
      ensures View().kids == old(View()).kids[key := child.View()]
    {
      if key in children {
        child := children[key];
        assert View().kids == old(View()).kids[key := child.View()];
      } else {
        child := new Node(key);
        children := children[key := child];
        repr := repr + child.repr;
        Grow(key, child);
      }
    }

    /** Linking a fresh valid leaf under a key that had no child. */
    twostate lemma Grow(key: string, new child: Node)
      requires old(Valid()) && key !in old(children)
      requires fresh(child) && child.Valid() && child.repr == {child}
      requires children == old(children)[key := child] && name == old(name)
      requires repr == old(repr) + {child}
      requires unchanged(old(repr) - {this})
      ensures Valid()
      ensures View().kids == old(View()).kids[key := child.View()]
    {
      forall k | k in old(children)
        ensures children[k].Valid() && children[k].View() == old(children[k].View())
      {
        var c := children[k];
        assert this !in old(c.repr) && old(c.repr) <= old(repr);
        c.ViewKept();
      }
    }

    /** After the child under `key` has changed only inside its own
        subtree, and this node has taken in the child's new footprint, this
        node is valid again and stands for the same tree with that child's
        new value. */
    twostate lemma Absorb(key: string, new child: Node)
      requires old(allocated(child))
      requires old(Valid()) && key in old(children) && old(children[key]) == child
      requires children == old(children) && name == old(name)
      requires repr == old(repr) + child.repr
      requires child.Valid() && fresh(child.repr - old(child.repr))
      requires unchanged(old(repr) - old(child.repr) - {this})
      ensures Valid() && fresh(repr - old(repr))
      ensures View() == Tree(name, old(View()).kids[key := child.View()])
    {
      forall k | k in children && k != key
        ensures children[k].repr == old(children[k].repr) && children[k].Valid() && children[k].View() == old(children[k].View())
      {
        var c := children[k];
        assert old(c.repr !! child.repr) && this !in old(c.repr) && old(c.repr) <= old(repr);
        c.ViewKept();
      }
    }

    /** Node.AddPath: nothing for the empty path; otherwise make sure the
        child under the first key exists and add the rest of the path to it. */
    method AddPath(path: seq<string>)
      requires Valid()
      modifies repr
      ensures Valid() && fresh(repr - old(repr))
      ensures View() == Insert(old(View()), path)
      ensures forall k | k in old(children) :: k in children && children[k] == old(children[k])
      decreases |path|, 1
    {
      if |path| == 0 {
        return;
      }
      ghost var was := View();
      var key := path[0];
      var child := EnsureChild(key);
      ghost var linked := View();
      ghost var below := child.View();
      Extend(key, child, path[1..]);
      InsertCompose(was, linked, below, path);
    }

    /** The recursive step of AddPath: the rest of the path goes to the
        child under `key`, and this node takes in the child's new nodes. */
    method Extend(key: string, child: Node, rest: seq<string>)
      requires Valid() && key in children && children[key] == child
      modifies repr
      ensures Valid() && fresh(repr - old(repr))
      ensures children == old(children) && name == old(name)
      ensures View() == Tree(name, old(View()).kids[key := Insert(old(child.View()), rest)])
      decreases |rest| + 1, 0
    {
      ghost var below := child.View();
      child.AddPath(rest);
      ghost var grown := child.View();
      repr := repr + child.repr;
      Absorb(key, child);
    }

    /** Node.SortChildren: a node without children is left alone; otherwise
        the keys are sorted, each child is sorted in key order and put into a
        new map, and that map replaces the old one. A Go map keeps no order,
        so the tree it stands for does not change. */
    method SortChildren()
      requires Valid()
      modifies repr
      ensures Valid() && repr == old(repr) && children == old(children)
      ensures View() == old(View())
      decreases repr, 2
    {
      if children == map[] {
        return;
      }
      var keys := SortedKeys(children);
      AscendingMembers(children.Keys);
      var sorted := SortEach(keys);
      SameEntries(sorted, children);
      label sortedEach:
      children := sorted;
      ViewKept@sortedEach();
    }

    /** A subtree none of whose nodes changed keeps its value. */
    twostate lemma ViewKept()
      requires old(Valid()) && unchanged(old(repr))
      ensures Valid() && View() == old(View())
    {
    }

    /** The loop of SortChildren: sort the child under each key of `keys`
        in turn and collect it into a new map under the same key. */
    method SortEach(keys: seq<string>) returns (sorted: map<string, Node>)
      requires Valid() && forall k | k in keys :: k in children
      modifies repr
      ensures Valid() && repr == old(repr) && children == old(children)
      ensures View() == old(View())
      ensures sorted.Keys == set k | k in keys
      ensures forall k | k in sorted :: k in children && sorted[k] == children[k]
      decreases repr, 1
    {
      sorted := map[];
      for i := 0 to |keys|
        invariant Valid() && repr == old(repr) && children == old(children)
        invariant View() == old(View())
        invariant sorted.Keys == set k | k in keys[..i]
        invariant forall k | k in sorted :: k in children && sorted[k] == children[k]
      {
        var key := keys[i];
        SortChild(key);
        sorted := sorted[key := children[key]];
        assert keys[..i + 1] == keys[..i] + [key];
      }
      assert keys[..|keys|] == keys;
    }

    /** One round of SortChildren's loop: sort the child under `key`. */
    method SortChild(key: string)
      requires Valid() && key in children
      modifies repr
      ensures Valid() && repr == old(repr) && children == old(children)
      ensures View() == old(View())
      decreases repr, 0
    {
      var child := children[key];
      child.SortChildren();
      Absorb(key, child);
      UpdateSame(old(View()).kids, key);
    }
  }
}
