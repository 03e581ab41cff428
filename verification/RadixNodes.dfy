/**
 * The nodes of the radix tree: a path-compressed trie with parent pointers, seen as a
 * value so that its shape can be stated and preserved step by step.
 */
module RadixNodes {
  import opened Lexicographic

  datatype Value = NoValue | Value(first: string, second: int)

  datatype Node = Node(
    children: map<string, RadixNode>,
    parent: RadixNode?,
    value: Value,
    depth: nat,
    isLeaf: bool,
    key: string)

  class RadixNode {
    var children: map<string, RadixNode>
    var parent: RadixNode?
    var value: Value
    var depth: nat
    var isLeaf: bool
    var key: string

    function Data(): Node
      reads this
    {
      Node(children, parent, value, depth, isLeaf, key)
    }

    constructor (value: Value)
      ensures Data() == Node(map[], null, value, 0, false, "")
    {
      this.children, this.parent, this.value := map[], null, value;
      this.depth, this.isLeaf, this.key := 0, false, "";
    }

    /** A new node and the fields its creator sets at once. */
    constructor Below(value: Value, parent: RadixNode, depth: nat, key: string, isLeaf: bool)
      ensures Data() == Node(map[], parent, value, depth, isLeaf, key)
    {
      this.children, this.parent, this.value := map[], parent, value;
      this.depth, this.isLeaf, this.key := depth, isLeaf, key;
    }

    /** The node gets another place in the tree. */
    method MoveTo(parent: RadixNode, depth: nat, key: string)
      modifies this
      ensures Data() == old(Data()).(parent := parent, depth := depth, key := key)
    {
      this.depth, this.parent, this.key := depth, parent, key;
    }
  }

  /**
   * A tree as a value. `path` spells the labels from the root to each node, and `leafOf`
   * is the leaf that holds each key.
   */
  datatype Tree = Tree(
    nodes: map<RadixNode, Node>,
    root: RadixNode?,
    path: map<RadixNode, string>,
    leafOf: map<string, RadixNode>)

  // ---- Shape ----

  ghost predicate Known(t: Tree) {
    t.root in t.nodes && t.nodes.Keys == t.path.Keys
  }

  /** Where a node hangs: its label, its parent and its depth agree. */
  ghost predicate Hangs(t: Tree, n: RadixNode)
    requires Known(t) && n in t.nodes
  {
    var d := t.nodes[n];
    && d.depth + |d.key| == |t.path[n]|
    && if n == t.root then d.parent == null && d.key == "" && t.path[n] == "" && !d.isLeaf
       else
         && d.parent in t.nodes
         && !t.nodes[d.parent].isLeaf
         && d.key in t.nodes[d.parent].children
         && t.nodes[d.parent].children[d.key] == n
         && t.path[n] == t.path[d.parent] + d.key
         && (d.isLeaf <==> d.key == "")
  }

  ghost predicate Linked(t: Tree, n: RadixNode, k: string)
    requires n in t.nodes && k in t.nodes[n].children
  {
    var c := t.nodes[n].children[k];
    c in t.nodes && t.nodes[c].key == k && t.nodes[c].parent == n
  }

  /** No two labels begin with one letter. */
  ghost predicate Forked(children: map<string, RadixNode>) {
    forall j, k | j in children && k in children && j != "" && k != "" && j[0] == k[0] :: j == k
  }

  /** What hangs from a node: children by their labels. */
  ghost predicate Holds(t: Tree, n: RadixNode)
    requires Known(t) && n in t.nodes
  {
    var d := t.nodes[n];
    && (d.isLeaf ==> d.children == map[] && d.value.Value? && d.value.first == t.path[n])
    && (forall k {:trigger Linked(t, n, k)} | k in d.children :: Linked(t, n, k))
    && Forked(d.children)
  }

  ghost predicate Shape(t: Tree) {
    && Known(t)
    && (forall n {:trigger Hangs(t, n)} | n in t.nodes :: Hangs(t, n))
    && (forall n {:trigger Holds(t, n)} | n in t.nodes :: Holds(t, n))
  }

  /** An inner node below the root ends a key or forks. */
  ghost predicate Compressed(t: Tree, n: RadixNode)
    requires n in t.nodes
  {
    n == t.root || t.nodes[n].isLeaf || "" in t.nodes[n].children || |t.nodes[n].children| >= 2
  }

  ghost predicate CompressedBut(t: Tree, but: RadixNode?) {
    forall n {:trigger Compressed(t, n)} | n in t.nodes && n != but :: Compressed(t, n)
  }

  ghost predicate Keyed(t: Tree)
    requires Known(t)
  {
    && (forall n | n in t.nodes && t.nodes[n].isLeaf :: t.path[n] in t.leafOf && t.leafOf[t.path[n]] == n)
    && (forall k | k in t.leafOf ::
          t.leafOf[k] in t.nodes && t.nodes[t.leafOf[k]].isLeaf && t.path[t.leafOf[k]] == k)
  }

  /** A radix tree between two operations; `but` may break the compression while one runs. */
  ghost predicate ValidBut(t: Tree, but: RadixNode?) {
    Shape(t) && CompressedBut(t, but) && Keyed(t)
  }

  ghost predicate ValidTree(t: Tree) {
    ValidBut(t, null)
  }

  ghost function Stored(t: Tree, n: RadixNode): int {
    if n in t.nodes && t.nodes[n].value.Value? then t.nodes[n].value.second else 0
  }

  /** The map the tree stands for. */
  ghost function Contents(t: Tree): map<string, int>
  {
    map k | k in t.leafOf :: Stored(t, t.leafOf[k])
  }

  // ---- A new value ----

  /** A leaf with another value. */
  ghost function Assigned(t: Tree, n: RadixNode, second: int): Tree
    requires n in t.nodes && t.nodes[n].value.Value?
  {
    t.(nodes := t.nodes[n := t.nodes[n].(value := t.nodes[n].value.(second := second))])
  }

  /** Exactly the value of the leaf's key changes. */
  lemma AssignedKeeps(t: Tree, n: RadixNode, second: int)
    requires ValidTree(t) && n in t.nodes && t.nodes[n].isLeaf
    ensures t.nodes[n].value.Value? && t.path[n] == t.nodes[n].value.first
    ensures ValidTree(Assigned(t, n, second))
    ensures Contents(Assigned(t, n, second)) == Contents(t)[t.path[n] := second]
  {
    assert Holds(t, n);
    var t' := Assigned(t, n, second);
    assert Shape(t') by {
      forall m | m in t'.nodes ensures Hangs(t', m) { assert Hangs(t, m); }
      forall m | m in t'.nodes
        ensures Holds(t', m)
      {
        assert Holds(t, m);
        forall k | k in t'.nodes[m].children ensures Linked(t', m, k) { assert Linked(t, m, k); }
      }
    }
    forall m | m in t'.nodes ensures Compressed(t', m) { assert Compressed(t, m); }
  }

  // ---- Ancestry ----

  ghost function Rank(t: Tree, n: RadixNode): nat {
    if n in t.nodes && n in t.path then 2 * |t.path[n]| + if t.nodes[n].isLeaf then 1 else 0 else 0
  }

  /** Going up from n leads through a. */
  ghost predicate Under(t: Tree, a: RadixNode, n: RadixNode)
    decreases Rank(t, n)
  {
    n == a || (n in t.nodes && t.nodes[n].parent != null && Rank(t, t.nodes[n].parent) < Rank(t, n)
               && Under(t, a, t.nodes[n].parent))
  }

  lemma ParentRank(t: Tree, n: RadixNode)
    requires Shape(t) && n in t.nodes && n != t.root
    ensures t.nodes[n].parent in t.nodes && Rank(t, t.nodes[n].parent) < Rank(t, n)
  {
    assert Hangs(t, n);
  }

  lemma {:induction false} UnderRoot(t: Tree, n: RadixNode)
    requires Shape(t) && n in t.nodes
    ensures Under(t, t.root, n)
    decreases Rank(t, n)
  {
    if n != t.root {
      ParentRank(t, n);
      UnderRoot(t, t.nodes[n].parent);
    }
  }

  lemma {:induction false} UnderTransitive(t: Tree, a: RadixNode, b: RadixNode, n: RadixNode)
    requires Under(t, a, b) && Under(t, b, n)
    ensures Under(t, a, n)
    decreases Rank(t, n)
  {
    if n != b { UnderTransitive(t, a, b, t.nodes[n].parent); }
  }

  /** An ancestor is in the tree, its path begins the node's, and it ranks no higher. */
  lemma {:induction false} UnderPath(t: Tree, a: RadixNode, n: RadixNode)
    requires Shape(t) && n in t.nodes && Under(t, a, n)
    ensures a in t.nodes && t.path[a] <= t.path[n]
    ensures Rank(t, a) <= Rank(t, n) && (a != n ==> Rank(t, a) < Rank(t, n) && !t.nodes[a].isLeaf)
    decreases Rank(t, n)
  {
    if n != a {
      assert Hangs(t, n);
      UnderPath(t, a, t.nodes[n].parent);
    }
  }

  /** Below a stands the child of a through which n is reached. */
  lemma {:induction false} ChildToward(t: Tree, a: RadixNode, n: RadixNode) returns (c: RadixNode)
    requires Shape(t) && n in t.nodes && Under(t, a, n) && n != a
    ensures a in t.nodes && c in t.nodes && t.nodes[c].parent == a && c != t.root
    ensures t.nodes[c].key in t.nodes[a].children && t.nodes[a].children[t.nodes[c].key] == c
    ensures t.path[c] == t.path[a] + t.nodes[c].key
    ensures Under(t, c, n) && t.path[c] <= t.path[n]
    decreases Rank(t, n)
  {
    assert Hangs(t, n);
    if t.nodes[n].parent == a {
      c := n;
    } else {
      c := ChildToward(t, a, t.nodes[n].parent);
      UnderPath(t, c, n);
    }
  }

  /** A child is below its parent, never the reverse. */
  lemma ChildUnder(t: Tree, a: RadixNode, k: string) returns (c: RadixNode)
    requires Shape(t) && a in t.nodes && k in t.nodes[a].children
    ensures c == t.nodes[a].children[k] && c in t.nodes && c != t.root
    ensures Under(t, a, c) && !Under(t, c, a)
    ensures t.path[c] == t.path[a] + k && (t.nodes[c].isLeaf <==> k == "")
    ensures t.nodes[c].key == k && t.nodes[c].parent == a
  {
    c := t.nodes[a].children[k];
    assert Holds(t, a) && Linked(t, a, k) && Hangs(t, c);
    ParentRank(t, c);
    if Under(t, c, a) { UnderPath(t, c, a); }
  }

  /** An inner node whose path begins another's is an ancestor of it: siblings never share a prefix. */
  lemma {:induction false} Nested(t: Tree, a: RadixNode, n: RadixNode)
    requires Shape(t) && a in t.nodes && n in t.nodes
    requires !t.nodes[a].isLeaf && t.path[a] <= t.path[n]
    ensures Under(t, a, n)
    decreases |t.path[a]|
  {
    if a == t.root {
      UnderRoot(t, n);
    } else {
      assert Hangs(t, a);
      var p := t.nodes[a].parent;
      Nested(t, p, n);
      var c := ChildToward(t, p, n);
      assert Hangs(t, c);
      if t.nodes[c].key == "" {
        UnderPath(t, c, n);
        assert false;
      } else {
        SameLetter(t.path[p], t.nodes[c].key, t.nodes[a].key, t.path[n]);
        assert Holds(t, p);
      }
    }
  }

  lemma SameLetter(p: string, j: string, k: string, whole: string)
    requires j != "" && k != "" && p + j <= whole && p + k <= whole
    ensures j[0] == k[0] == whole[|p|]
  {
    assert (p + j)[|p|] == j[0] && (p + k)[|p|] == k[0];
  }

  // ---- Changes of the shape ----

  /** The data of a new node labelled k below p. */
  function Sprout(t: Tree, p: RadixNode, value: Value, k: string): Node
    requires p in t.path
  {
    Node(map[], p, value, |t.path[p]|, k == "", k)
  }

  /** A new childless node n labelled k is hung below p. */
  function Attach(t: Tree, p: RadixNode, n: RadixNode, value: Value, k: string): Tree
    requires p in t.nodes && p in t.path
  {
    var held := t.nodes[p].(children := t.nodes[p].children[k := n]);
    var path := t.path[p] + k;
    Tree(t.nodes[p := held][n := Sprout(t, p, value, k)], t.root, t.path[n := path],
         if k == "" then t.leafOf[path := n] else t.leafOf)
  }

  /** Label k is free below p, and so is its first letter. */
  ghost predicate Free(t: Tree, p: RadixNode, k: string)
    requires p in t.nodes
  {
    k !in t.nodes[p].children && (k != "" ==> forall j | j in t.nodes[p].children && j != "" :: j[0] != k[0])
  }

  ghost predicate CanAttach(t: Tree, p: RadixNode, n: RadixNode, value: Value, k: string)
    requires Known(t)
  {
    && p in t.nodes && n !in t.nodes && !t.nodes[p].isLeaf && Free(t, p, k)
    && (k == "" ==> value.Value? && value.first == t.path[p])
  }

  lemma AttachHangs(t: Tree, p: RadixNode, n: RadixNode, value: Value, k: string, m: RadixNode)
    requires Shape(t) && CanAttach(t, p, n, value, k) && (m == n || m in t.nodes)
    ensures Known(Attach(t, p, n, value, k)) && Hangs(Attach(t, p, n, value, k), m)
  {
    var u := Attach(t, p, n, value, k);
    assert u.nodes.Keys == t.nodes.Keys + {n} && u.path.Keys == t.path.Keys + {n};
    assert t.root in t.nodes;
    if m != n { assert Hangs(t, m); }
  }

  lemma AttachHolds(t: Tree, p: RadixNode, n: RadixNode, value: Value, k: string, m: RadixNode)
    requires Shape(t) && CanAttach(t, p, n, value, k) && (m == n || m in t.nodes)
    ensures Known(Attach(t, p, n, value, k)) && Holds(Attach(t, p, n, value, k), m)
  {
    var u := Attach(t, p, n, value, k);
    assert u.nodes.Keys == t.nodes.Keys + {n} && u.path.Keys == t.path.Keys + {n};
    if m != n {
      assert Holds(t, m);
      forall j | j in u.nodes[m].children
        ensures Linked(u, m, j)
      {
        if !(m == p && j == k) { assert Linked(t, m, j); }
      }
      assert Forked(u.nodes[m].children);
    }
  }

  lemma AttachShape(t: Tree, p: RadixNode, n: RadixNode, value: Value, k: string)
    requires Shape(t) && CanAttach(t, p, n, value, k)
    ensures Shape(Attach(t, p, n, value, k))
  {
    hide Hangs, Holds;
    var u := Attach(t, p, n, value, k);
    assert Known(u) by { AttachHangs(t, p, n, value, k, n); }
    forall m | m in u.nodes
      ensures Hangs(u, m) && Holds(u, m)
    {
      AttachHangs(t, p, n, value, k, m);
      AttachHolds(t, p, n, value, k, m);
    }
  }

  lemma AttachKeyed(t: Tree, p: RadixNode, n: RadixNode, value: Value, k: string)
    requires Shape(t) && Keyed(t) && CanAttach(t, p, n, value, k)
    requires k == "" ==> t.path[p] !in t.leafOf
    ensures Known(Attach(t, p, n, value, k)) && Keyed(Attach(t, p, n, value, k))
  {
    var u := Attach(t, p, n, value, k);
    assert t.path[p] + "" == t.path[p];
    assert u.nodes.Keys == t.nodes.Keys + {n} && u.path.Keys == t.path.Keys + {n};
  }

  /** A leaf makes its parent compressed; a branch below a node that keeps another child leaves
      only itself to be filled. */
  lemma AttachCompressed(t: Tree, p: RadixNode, n: RadixNode, value: Value, k: string)
    requires Shape(t) && CanAttach(t, p, n, value, k) && CompressedBut(t, p)
    requires k == "" || p == t.root || t.nodes[p].children != map[]
    ensures CompressedBut(Attach(t, p, n, value, k), if k == "" then null else n)
  {
    var u := Attach(t, p, n, value, k);
    assert u.nodes[p].children.Keys == t.nodes[p].children.Keys + {k};
    assert |u.nodes[p].children| == |u.nodes[p].children.Keys| && |t.nodes[p].children| == |t.nodes[p].children.Keys|;
    forall m | m in u.nodes && (k == "" || m != n)
      ensures Compressed(u, m)
    {
      if m != p && m != n { assert Compressed(t, m); }
    }
  }

  /** A leaf for a new key goes below the node that spells it. */
  lemma AttachLeaf(t: Tree, p: RadixNode, n: RadixNode, value: Value)
    requires ValidBut(t, p) && CanAttach(t, p, n, value, "") && t.path[p] !in t.leafOf
    ensures ValidTree(Attach(t, p, n, value, ""))
    ensures Contents(Attach(t, p, n, value, "")) == Contents(t)[t.path[p] := value.second]
  {
    AttachShape(t, p, n, value, "");
    AttachKeyed(t, p, n, value, "");
    AttachCompressed(t, p, n, value, "");
    assert t.path[p] + "" == t.path[p];
  }

  /** A branch with no key of its own changes no contents. */
  lemma AttachBranch(t: Tree, p: RadixNode, n: RadixNode, value: Value, k: string)
    requires ValidBut(t, p) && CanAttach(t, p, n, value, k) && k != ""
    requires p == t.root || t.nodes[p].children != map[]
    ensures ValidBut(Attach(t, p, n, value, k), n)
    ensures Contents(Attach(t, p, n, value, k)) == Contents(t)
  {
    AttachShape(t, p, n, value, k);
    AttachKeyed(t, p, n, value, k);
    AttachCompressed(t, p, n, value, k);
  }

  /** A new node `a` takes the place of n and the head of its label. */
  function Headed(t: Tree, n: RadixNode, a: RadixNode, count: nat): Tree
    requires n in t.nodes && t.nodes[n].parent in t.nodes && t.nodes[n].parent in t.path
    requires count <= |t.nodes[n].key|
  {
    var d := t.nodes[n];
    var head := d.key[..count];
    var q := t.nodes[d.parent];
    t.(nodes := t.nodes
         [d.parent := q.(children := (q.children - {d.key})[head := a])]
         [a := Node(map[], d.parent, NoValue, d.depth, false, head)],
       path := t.path[a := t.path[d.parent] + head])
  }

  /** The label of n is cut after `count` letters by a new node a. */
  function Split(t: Tree, n: RadixNode, a: RadixNode, count: nat): Tree
    requires n in t.nodes && t.nodes[n].parent in t.nodes && t.nodes[n].parent in t.path
    requires count <= |t.nodes[n].key|
  {
    var d := t.nodes[n];
    var u := Headed(t, n, a, count);
    var rest := d.key[count..];
    u.(nodes := u.nodes[a := u.nodes[a].(children := map[rest := n])]
                       [n := d.(depth := d.depth + count, parent := a, key := rest)])
  }

  lemma HeadedNodes(t: Tree, n: RadixNode, a: RadixNode, count: nat)
    requires n in t.nodes && t.nodes[n].parent in t.nodes && t.nodes[n].parent in t.path
    requires count <= |t.nodes[n].key| && t.nodes[n].parent != n && a !in t.nodes
    ensures var u := Headed(t, n, a, count);
      n in u.nodes && a in u.nodes && a != n && u.nodes[n] == t.nodes[n] && u.nodes[a].children == map[]
  {
  }

  /** Cutting a label in three steps: the head, the node's new place and the head's child. */
  lemma SplitNodes(t: Tree, n: RadixNode, a: RadixNode, count: nat, u: Tree)
    requires n in t.nodes && t.nodes[n].parent in t.nodes && t.nodes[n].parent in t.path
    requires count <= |t.nodes[n].key| && t.nodes[n].parent != n && a !in t.nodes
    requires var d := t.nodes[n]; var h := Headed(t, n, a, count);
      var moved := h.nodes[n := d.(parent := a, depth := d.depth + count, key := d.key[count..])];
      u == h.(nodes := moved[a := h.nodes[a].(children := map[d.key[count..] := n])])
    ensures u == Split(t, n, a, count)
  {
    HeadedNodes(t, n, a, count);
    hide Headed;
  }

  ghost predicate CanSplit(t: Tree, n: RadixNode, a: RadixNode, count: nat)
    requires Known(t)
  {
    n in t.nodes && n != t.root && !t.nodes[n].isLeaf && a !in t.nodes && 0 < count < |t.nodes[n].key|
  }

  /** Cutting a label, node by node. */
  lemma SplitView(t: Tree, n: RadixNode, a: RadixNode, count: nat)
    requires Known(t) && n in t.nodes && a !in t.nodes && count <= |t.nodes[n].key|
    requires t.nodes[n].parent in t.nodes && t.nodes[n].parent != n
    ensures var u := Split(t, n, a, count); var d := t.nodes[n]; var q := t.nodes[d.parent];
      && Known(u) && u.root == t.root && u.leafOf == t.leafOf
      && u.nodes.Keys == t.nodes.Keys + {a} && u.path == t.path[a := t.path[d.parent] + d.key[..count]]
      && u.nodes[d.parent] == q.(children := (q.children - {d.key})[d.key[..count] := a])
      && u.nodes[a] == Node(map[d.key[count..] := n], d.parent, NoValue, d.depth, false, d.key[..count])
      && u.nodes[n] == d.(depth := d.depth + count, parent := a, key := d.key[count..])
      && forall m | m in t.nodes && m != n && m != d.parent :: u.nodes[m] == t.nodes[m]
  {
  }

  /** The head of the label is free: no sibling begins with its first letter. */
  lemma HeadIsFree(t: Tree, n: RadixNode, head: string)
    requires Shape(t) && n in t.nodes && n != t.root && !t.nodes[n].isLeaf && head != ""
    ensures Hangs(t, n) && t.nodes[n].key != ""
    ensures head[0] == t.nodes[n].key[0] ==>
      forall j | j in t.nodes[t.nodes[n].parent].children && j != t.nodes[n].key && j != "" :: j[0] != head[0]
  {
    assert Hangs(t, n) && Holds(t, t.nodes[n].parent);
  }

  lemma SplitHangs(t: Tree, n: RadixNode, a: RadixNode, count: nat, m: RadixNode)
    requires Shape(t) && CanSplit(t, n, a, count) && (m == a || m in t.nodes)
    ensures Hangs(t, n) && Known(Split(t, n, a, count)) && Hangs(Split(t, n, a, count), m)
  {
    hide Split, Shape;
    ShapeOf(t, n);
    SplitView(t, n, a, count);
    ShapeOf(t, t.nodes[n].parent);
    if m == n {
      SplitLow(t, n, a, count);
    } else if m == a {
      SplitHead(t, n, a, count);
    } else {
      SplitOther(t, n, a, count, m);
    }
  }

  /** What a tree's shape says of one node. */
  lemma ShapeOf(t: Tree, n: RadixNode)
    requires Shape(t) && n in t.nodes
    ensures Known(t) && Hangs(t, n) && (n != t.root ==> t.nodes[n].parent in t.nodes && t.nodes[n].parent != n)
  {
    hide Holds, Hangs;
    assert Hangs(t, n);
    if n != t.root { ParentRank(t, n); }
    ParentThere(t, n);
  }

  lemma ParentThere(t: Tree, n: RadixNode)
    requires Known(t) && n in t.nodes && Hangs(t, n)
    ensures n != t.root ==> t.nodes[n].parent in t.nodes
  {
  }

  /** The lower part of the label hangs under the head. */
  lemma SplitLow(t: Tree, n: RadixNode, a: RadixNode, count: nat)
    requires Known(t) && CanSplit(t, n, a, count) && Hangs(t, n) && t.nodes[n].parent != n
    ensures Known(Split(t, n, a, count)) && Hangs(Split(t, n, a, count), n)
  {
    hide Split;
    SplitView(t, n, a, count);
    var d := t.nodes[n];
    assert d.key[..count] + d.key[count..] == d.key;
    assert t.path[n] ==
      t.path[d.parent] + (d.key[..count] + d.key[count..]) == (t.path[d.parent] + d.key[..count]) + d.key[count..];
  }

  lemma SplitHead(t: Tree, n: RadixNode, a: RadixNode, count: nat)
    requires Known(t) && CanSplit(t, n, a, count) && Hangs(t, n) && t.nodes[n].parent != n
    requires Hangs(t, t.nodes[n].parent)
    ensures Known(Split(t, n, a, count)) && Hangs(Split(t, n, a, count), a)
  {
    hide Split;
    SplitView(t, n, a, count);
  }

  lemma SplitOther(t: Tree, n: RadixNode, a: RadixNode, count: nat, m: RadixNode)
    requires Shape(t) && CanSplit(t, n, a, count) && m in t.nodes && m != n && Hangs(t, n)
    ensures Known(Split(t, n, a, count)) && Hangs(Split(t, n, a, count), m)
  {
    hide Split;
    assert Hangs(t, n) && Hangs(t, m);
    ParentRank(t, n);
    HeadIsFree(t, n, t.nodes[n].key[..count]);
    SplitView(t, n, a, count);
  }

  lemma SplitHolds(t: Tree, n: RadixNode, a: RadixNode, count: nat, m: RadixNode)
    requires Shape(t) && CanSplit(t, n, a, count) && (m == a || m in t.nodes)
    ensures Hangs(t, n) && Known(Split(t, n, a, count)) && Holds(Split(t, n, a, count), m)
  {
    hide Split;
    assert Hangs(t, n);
    var u := Split(t, n, a, count);
    var d := t.nodes[n];
    ParentRank(t, n);
    HeadIsFree(t, n, d.key[..count]);
    SplitView(t, n, a, count);
    if m != a {
      assert Holds(t, m);
      forall j | j in u.nodes[m].children
        ensures Linked(u, m, j)
      {
        if !(m == d.parent && j == d.key[..count]) { assert Linked(t, m, j); }
      }
    }
  }

  lemma SplitShape(t: Tree, n: RadixNode, a: RadixNode, count: nat)
    requires Shape(t) && CanSplit(t, n, a, count)
    ensures Hangs(t, n) && Shape(Split(t, n, a, count))
  {
    assert Hangs(t, n);
    var u := Split(t, n, a, count);
    assert Known(u) by { SplitHangs(t, n, a, count, n); }
    hide Hangs, Holds;
    forall m | m in u.nodes
      ensures Hangs(u, m) && Holds(u, m)
    {
      SplitHangs(t, n, a, count, m);
      SplitHolds(t, n, a, count, m);
    }
  }

  lemma SplitCompressed(t: Tree, n: RadixNode, a: RadixNode, count: nat)
    requires Shape(t) && CompressedBut(t, null) && CanSplit(t, n, a, count)
    ensures Hangs(t, n) && CompressedBut(Split(t, n, a, count), a)
  {
    hide Split;
    assert Hangs(t, n);
    ParentRank(t, n);
    SplitView(t, n, a, count);
    var u := Split(t, n, a, count);
    var d := t.nodes[n];
    var was, now := t.nodes[d.parent].children, u.nodes[d.parent].children;
    HeadIsFree(t, n, d.key[..count]);
    Relabelled(was, d.key, d.key[..count], a);
    forall m | m in u.nodes && m != a
      ensures Compressed(u, m)
    {
      assert Compressed(t, m);
    }
  }

  /** Renaming one label keeps the number of children. */
  lemma Relabelled(was: map<string, RadixNode>, j: string, k: string, n: RadixNode)
    requires j in was && (k == j || k !in was)
    ensures |(was - {j})[k := n]| == |was|
  {
    var now := (was - {j})[k := n];
    assert now.Keys == was.Keys - {j} + {k};
    assert |now| == |now.Keys| && |was| == |was.Keys|;
  }

  lemma SplitKeyed(t: Tree, n: RadixNode, a: RadixNode, count: nat)
    requires Shape(t) && Keyed(t) && CanSplit(t, n, a, count)
    ensures Hangs(t, n) && Known(Split(t, n, a, count)) && Keyed(Split(t, n, a, count))
    ensures Contents(Split(t, n, a, count)) == Contents(t)
  {
    hide Split, Holds;
    assert Hangs(t, n);
    ParentRank(t, n);
    SplitView(t, n, a, count);
    forall k | k in t.leafOf
      ensures Stored(Split(t, n, a, count), t.leafOf[k]) == Stored(t, t.leafOf[k])
    {
    }
  }

  /** Cutting a label keeps every key, and only the new node may need another child. */
  lemma SplitKeeps(t: Tree, n: RadixNode, a: RadixNode, count: nat)
    requires ValidTree(t) && CanSplit(t, n, a, count)
    ensures Hangs(t, n) && ValidBut(Split(t, n, a, count), a)
    ensures Contents(Split(t, n, a, count)) == Contents(t)
  {
    hide Split, Hangs, Holds, Shape, Keyed, CompressedBut, Contents;
    SplitShape(t, n, a, count);
    SplitCompressed(t, n, a, count);
    SplitKeyed(t, n, a, count);
  }

  /** A childless node is cut off and freed. */
  function Detach(t: Tree, n: RadixNode): Tree
    requires n in t.nodes && n in t.path && t.nodes[n].parent in t.nodes
  {
    var d := t.nodes[n];
    var q := t.nodes[d.parent];
    Tree(t.nodes[d.parent := q.(children := q.children - {d.key})] - {n}, t.root, t.path - {n},
         if d.isLeaf then t.leafOf - {t.path[n]} else t.leafOf)
  }

  lemma DetachHangs(t: Tree, n: RadixNode, m: RadixNode)
    requires Shape(t) && n in t.nodes && n != t.root && t.nodes[n].children == map[] && m in t.nodes && m != n
    ensures Hangs(t, n) && Known(Detach(t, n)) && Hangs(Detach(t, n), m)
  {
    assert Hangs(t, n);
    ParentRank(t, n);
    var u := Detach(t, n);
    assert u.nodes.Keys == t.nodes.Keys - {n} && u.path.Keys == t.path.Keys - {n};
    assert Hangs(t, m);
  }

  lemma DetachHolds(t: Tree, n: RadixNode, m: RadixNode)
    requires Shape(t) && n in t.nodes && n != t.root && t.nodes[n].children == map[] && m in t.nodes && m != n
    ensures Hangs(t, n) && Known(Detach(t, n)) && Holds(Detach(t, n), m)
  {
    assert Hangs(t, n);
    ParentRank(t, n);
    var u := Detach(t, n);
    assert u.nodes.Keys == t.nodes.Keys - {n} && u.path.Keys == t.path.Keys - {n};
    assert Holds(t, m);
    forall j | j in u.nodes[m].children
      ensures Linked(u, m, j)
    {
      assert Linked(t, m, j);
    }
  }

  lemma DetachShape(t: Tree, n: RadixNode)
    requires Shape(t) && n in t.nodes && n != t.root && t.nodes[n].children == map[]
    ensures Hangs(t, n) && Shape(Detach(t, n))
  {
    assert Hangs(t, n);
    var u := Detach(t, n);
    assert Known(u) by { DetachHangs(t, n, t.root); }
    hide Hangs, Holds;
    forall m | m in u.nodes
      ensures Hangs(u, m) && Holds(u, m)
    {
      DetachHangs(t, n, m);
      DetachHolds(t, n, m);
    }
  }

  lemma DetachKeyed(t: Tree, n: RadixNode)
    requires Shape(t) && Keyed(t) && n in t.nodes && n != t.root && t.nodes[n].children == map[]
    ensures Hangs(t, n) && Known(Detach(t, n)) && Keyed(Detach(t, n))
    ensures Contents(Detach(t, n)) == if t.nodes[n].isLeaf then Contents(t) - {t.path[n]} else Contents(t)
  {
    assert Hangs(t, n);
    ParentRank(t, n);
    DetachHangs(t, n, t.root);
    hide Shape, Hangs;
    var u := Detach(t, n);
    forall k | k in u.leafOf
      ensures u.leafOf[k] in u.nodes && u.nodes[u.leafOf[k]].isLeaf && u.path[u.leafOf[k]] == k
      ensures Stored(u, u.leafOf[k]) == Stored(t, t.leafOf[k])
    {
      assert t.path[t.leafOf[k]] == k && t.nodes[t.leafOf[k]].isLeaf;
    }
  }

  /** Cutting off a node removes its key, if it is a leaf, and only its parent may lose its compression. */
  lemma DetachKeeps(t: Tree, n: RadixNode, but: RadixNode?)
    requires ValidBut(t, but) && n in t.nodes && n != t.root && t.nodes[n].children == map[]
    requires but == null || but == n
    ensures Hangs(t, n) && ValidBut(Detach(t, n), t.nodes[n].parent)
    ensures Contents(Detach(t, n)) == if t.nodes[n].isLeaf then Contents(t) - {t.path[n]} else Contents(t)
  {
    DetachShape(t, n);
    DetachKeyed(t, n);
    hide Shape, Hangs, Keyed, Contents;
    forall m | m in Detach(t, n).nodes && m != t.nodes[n].parent
      ensures Compressed(Detach(t, n), m)
    {
      assert Compressed(t, m);
    }
  }

  /** The sole child c of g takes g's place, with both labels joined; g is freed. */
  function Merge(t: Tree, g: RadixNode, c: RadixNode): Tree
    requires g in t.nodes && c in t.nodes && t.nodes[g].parent in t.nodes
  {
    var d := t.nodes[g];
    var q := t.nodes[d.parent];
    var joined := d.key + t.nodes[c].key;
    t.(nodes := t.nodes
         [d.parent := q.(children := (q.children - {d.key})[joined := c])]
         [c := t.nodes[c].(depth := d.depth, parent := d.parent, key := joined)] - {g},
       path := t.path - {g})
  }

  ghost predicate CanMerge(t: Tree, g: RadixNode, c: RadixNode)
    requires Known(t)
  {
    && g in t.nodes && c in t.nodes && g != t.root && t.nodes[g].parent in t.nodes
    && !t.nodes[c].isLeaf
    && t.nodes[g].children == map[t.nodes[c].key := c]
  }

  /** What a merge rests on: where g, its child and its parent stand. */
  lemma MergeSite(t: Tree, g: RadixNode, c: RadixNode)
    requires Shape(t) && CanMerge(t, g, c)
    ensures Hangs(t, g) && Hangs(t, c) && t.nodes[c].parent == g
    ensures t.nodes[g].key != "" && t.nodes[c].key != ""
    ensures t.nodes[g].parent != g && t.nodes[g].parent != c && c != g && c != t.root
    ensures var q := t.nodes[t.nodes[g].parent].children; var joined := t.nodes[g].key + t.nodes[c].key;
      joined !in q && forall j | j in q && j != t.nodes[g].key && j != "" :: j[0] != joined[0]
  {
    assert Hangs(t, g) && Holds(t, g) && Linked(t, g, t.nodes[c].key) && Hangs(t, c);
    ParentRank(t, g);
    ParentRank(t, c);
    HeadIsFree(t, g, t.nodes[g].key + t.nodes[c].key);
  }

  lemma MergeHangs(t: Tree, g: RadixNode, c: RadixNode, m: RadixNode)
    requires Shape(t) && CanMerge(t, g, c) && m in t.nodes && m != g
    ensures Known(Merge(t, g, c)) && Hangs(Merge(t, g, c), m)
  {
    var u := Merge(t, g, c);
    MergeSite(t, g, c);
    assert u.nodes.Keys == t.nodes.Keys - {g} && u.path.Keys == t.path.Keys - {g};
    assert Hangs(t, m);
    if m == c {
      var q := t.nodes[g].parent;
      assert t.path[q] + (t.nodes[g].key + t.nodes[c].key) == (t.path[q] + t.nodes[g].key) + t.nodes[c].key;
    }
  }

  lemma MergeHolds(t: Tree, g: RadixNode, c: RadixNode, m: RadixNode)
    requires Shape(t) && CanMerge(t, g, c) && m in t.nodes && m != g
    ensures Known(Merge(t, g, c)) && Holds(Merge(t, g, c), m)
  {
    var u := Merge(t, g, c);
    MergeSite(t, g, c);
    assert u.nodes.Keys == t.nodes.Keys - {g} && u.path.Keys == t.path.Keys - {g};
    assert Holds(t, m);
    forall j | j in u.nodes[m].children
      ensures Linked(u, m, j)
    {
      if !(m == t.nodes[g].parent && j == t.nodes[g].key + t.nodes[c].key) { assert Linked(t, m, j); }
    }
  }

  lemma MergeShape(t: Tree, g: RadixNode, c: RadixNode)
    requires Shape(t) && CanMerge(t, g, c)
    ensures Shape(Merge(t, g, c))
  {
    var u := Merge(t, g, c);
    assert Known(u) by { MergeSite(t, g, c); MergeHangs(t, g, c, c); }
    hide Hangs, Holds;
    forall m | m in u.nodes
      ensures Hangs(u, m) && Holds(u, m)
    {
      MergeHangs(t, g, c, m);
      MergeHolds(t, g, c, m);
    }
  }

  lemma MergeCompressed(t: Tree, g: RadixNode, c: RadixNode)
    requires Shape(t) && CompressedBut(t, g) && CanMerge(t, g, c)
    ensures CompressedBut(Merge(t, g, c), null)
  {
    var u := Merge(t, g, c);
    var d := t.nodes[g];
    MergeSite(t, g, c);
    Relabelled(t.nodes[d.parent].children, d.key, d.key + t.nodes[c].key, c);
    forall m | m in u.nodes
      ensures Compressed(u, m)
    {
      assert Compressed(t, m);
    }
  }

  /** Joining two labels keeps every key and restores the compression. */
  lemma MergeKeeps(t: Tree, g: RadixNode, c: RadixNode)
    requires ValidBut(t, g) && CanMerge(t, g, c)
    ensures ValidTree(Merge(t, g, c))
    ensures Contents(Merge(t, g, c)) == Contents(t)
  {
    MergeShape(t, g, c);
    MergeCompressed(t, g, c);
    MergeSite(t, g, c);
  }
}
