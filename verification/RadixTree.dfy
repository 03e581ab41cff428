/**
 * The radix tree of the completion engine: it stands for a map from strings to numbers and
 * visits the keys in order.
 */
module RadixTrees {
  import opened Lexicographic
  import opened RadixNodes
  import opened RadixSearch

  ghost const EMPTY := Tree(map[], null, map[], map[])

  lemma NothingStored()
    ensures Contents(EMPTY) == map[]
  {
  }

  // ---- Runs of operations ----

  datatype TreeOp =
    | InsertOp(key: string, value: int)
    | EraseOp(key: string)
    | FindOp(key: string)
    | IndexOp(key: string)
    | AssignOp(key: string, value: int)

  /** Whether the tree changed, the value found or assigned, or nothing found. */
  datatype Answer = Changed(changed: bool) | Found(value: int) | Missing

  /** What a plain map does under the operation: its new contents and its answer. */
  function Applied(m: map<string, int>, op: TreeOp): (r: (map<string, int>, Answer)) {
    match op
    case InsertOp(key, value) => if key in m then (m, Changed(false)) else (m[key := value], Changed(true))
    case EraseOp(key) => (m - {key}, Changed(key in m))
    case FindOp(key) => (m, if key in m then Found(m[key]) else Missing)
    case IndexOp(key) => if key in m then (m, Found(m[key])) else (m[key := 0], Found(0))
    case AssignOp(key, value) => (m[key := value], Found(value))
  }

  /** The map after a run of operations, and the answers on the way. */
  function Replayed(m: map<string, int>, ops: seq<TreeOp>): (map<string, int>, seq<Answer>) {
    if ops == [] then (m, [])
    else
      var before := Replayed(m, ops[..|ops| - 1]);
      var last := Applied(before.0, ops[|ops| - 1]);
      (last.0, before.1 + [last.1])
  }

  class RadixTree {
    var root: RadixNode?
    var size: nat
    ghost var view: Tree

    /** The nodes in memory are those of the view, field by field. */
    ghost predicate Synced()
      reads this, view.nodes.Keys
    {
      root == view.root && forall n | n in view.nodes :: n.Data() == view.nodes[n]
    }

    ghost predicate Valid()
      reads this, view.nodes.Keys
    {
      && Synced()
      && if root == null then view == EMPTY && size == 0 else ValidTree(view) && size == |Contents(view)|
    }

    /** The map the tree stands for. */
    ghost function Model(): map<string, int>
      reads this
    {
      Contents(view)
    }

    constructor ()
      ensures Valid() && Model() == map[] && root == null && size == 0 && view == EMPTY
    {
      root, size := null, 0;
      view := EMPTY;
    }

    // ---- Search ----

    method FindNode(key: string) returns (node: RadixNode)
      requires Valid() && root != null
      ensures node in view.nodes && Located(view, key, node)
    {
      hide ValidBut, Located;
      ghost var t := view;
      SearchStarts(t, key);
      node := root;
      var depth := 0;
      while true
        invariant node in view.nodes && Reached(t, key, node) && depth == |t.path[node]|
        decreases |key| - depth
      {
        if node.children == map[] {
          SearchStops(t, key, node);
          return;
        }
        var child := MatchingChild(key, node, depth);
        if child == null {
          SearchStops(t, key, node);
          return;
        }
        ghost var c := SearchStep(t, key, node, child.key);
        if child.isLeaf { return child; }
        if Substr(key, depth, |child.key|) == child.key {
          node, depth := child, depth + |child.key|;
        } else {
          return child;
        }
      }
    }

    /** The scan of one node's children: the leaf if the key ends here, else the label that begins alike. */
    method MatchingChild(key: string, node: RadixNode, depth: nat) returns (child: RadixNode?)
      requires Valid() && root != null && node in view.nodes && !node.isLeaf
      requires depth <= |key|
      ensures child == null ==> forall k | k in node.children :: !LeadsOn(key, depth, k)
      ensures child != null ==>
        && child in view.nodes && child.key in node.children
        && node.children[child.key] == child && LeadsOn(key, depth, child.key)
    {
      hide Keyed, CompressedBut;
      ghost var t := view;
      var rest := node.children.Keys;
      while rest != {}
        invariant rest <= node.children.Keys
        invariant forall k | k in node.children && k !in rest :: !LeadsOn(key, depth, k)
      {
        var k := Least(rest);
        rest := rest - {k};
        child := node.children[k];
        ghost var c := ChildUnder(t, node, k);
        assert child in view.nodes && child.key == k && (child.isLeaf <==> k == "");
        if |key| - depth == 0 {
          if child.isLeaf { return; }
        } else if !child.isLeaf && key[depth] == k[0] {
          return;
        }
      }
      child := null;
    }

    // ---- Lookup ----

    method Find(key: string) returns (node: RadixNode?)
      requires Valid()
      ensures node == null <==> key !in Model()
      ensures node != null ==> node in view.nodes && node.isLeaf && node.value == Value(key, Model()[key])
    {
      hide ValidBut, Located;
      if root == null { return null; }
      node := FindNode(key);
      LocatedDecides(view, key, node);
      if !node.isLeaf { return null; }
    }

    /** The longest stored key that begins the given one. */
    method LongestMatch(key: string) returns (found: RadixNode?)
      requires Valid()
      ensures found == null ==> forall k | k in Model() :: !(k <= key)
      ensures found != null ==>
        && found in view.nodes && found.isLeaf && found.value.Value?
        && found.value.first in Model() && found.value.first <= key
        && forall k | k in Model() && k <= key :: |k| <= |found.value.first|
    {
      hide ValidBut, Located;
      if root == null { return null; }
      var node: RadixNode? := FindNode(key);
      ghost var t := view;
      LocatedDecides(t, key, node);
      if node.isLeaf { return node; }
      ClimbStarts(t, key, node);
      if Substr(key, node.depth, |node.key|) != node.key { node := node.parent; }
      while node != null
        invariant Climbing(t, key, node)
        decreases if node == null then 0 else 1 + Rank(t, node)
      {
        if "" in node.children {
          ghost var c := ChildOf(t, node, "");
          if node.children[""].isLeaf {
            c := ClimbEnds(t, key, node);
            return node.children[""];
          }
        }
        ClimbsHigher(t, key, node);
        node := node.parent;
      }
      return null;
    }

    // ---- Completion ----

    /** Collects the leaves below a node, child by child in the order of the labels. */
    method GreedyMatchBelow(node: RadixNode, vec: seq<RadixNode>) returns (all: seq<RadixNode>)
      requires Valid() && root != null && node in view.nodes
      ensures vec <= all && Lists(view, all[|vec|..], LeavesUnder(view, node))
      decreases Subtree(view, node)
    {
      hide ValidBut, Visited, Lists, Subtree, LeavesUnder;
      ghost var t := view;
      if node.isLeaf {
        LeafAlone(t, node);
        all := vec + [node];
        assert all[|vec|..] == [node];
        return;
      }
      all := vec;
      var rest := node.children.Keys;
      ghost var s: seq<RadixNode> := [];
      VisitStarts(t, node);
      while rest != {}
        invariant rest <= node.children.Keys && all == vec + s
        invariant Visited(t, node, rest, s)
      {
        var k := Least(rest);
        SubtreeShrinks(t, node, k);
        ghost var was := all;
        all := GreedyMatchBelow(node.children[k], all);
        VisitNext(t, node, rest, k, s, all[|was|..]);
        s := s + all[|was|..];
        rest := rest - {k};
      }
      VisitedAll(t, node, s);
      assert all[|vec|..] == s;
    }

    /** All stored keys with the given prefix, each once, in order. */
    method PrefixMatch(key: string) returns (vec: seq<RadixNode>)
      requires Valid()
      ensures forall n | n in vec :: n in view.nodes && n.isLeaf
      ensures root == null ==> vec == []
      ensures root != null ==> Ascending(view, vec) && PathsOf(view, vec) == set k | k in Model() && key <= k
    {
      hide ValidBut, Located, Lists, LeavesUnder, Ascending, PathsOf, Target;
      vec := [];
      if root == null { return; }
      var node := FindNode(key);
      ghost var t := view;
      ghost var found := node;
      TargetTest(t, key, node);
      if node.isLeaf { node := node.parent; }
      var len := |key| - node.depth;
      if Substr(key, node.depth, len) != Substr(node.key, 0, len) {
        Completed(t, key, found, []);
        return;
      }
      vec := GreedyMatchBelow(node, vec);
      Completed(t, key, found, vec);
    }

    /**
     * Like PrefixMatch without the final test: the keys that begin with the path of some node, among
     * them all that begin with the given one.
     */
    method GreedyMatch(key: string) returns (vec: seq<RadixNode>)
      requires Valid()
      ensures forall n | n in vec :: n in view.nodes && n.isLeaf
      ensures root == null ==> vec == []
      ensures root != null ==>
        && Ascending(view, vec)
        && (set k | k in Model() && key <= k) <= PathsOf(view, vec)
        && exists n ::
          n in view.nodes && n in view.path && PathsOf(view, vec) == set k | k in Model() && view.path[n] <= k
    {
      hide ValidBut, Located, Lists, LeavesUnder, Ascending, PathsOf, Target;
      vec := [];
      if root == null { return; }
      var node := FindNode(key);
      ghost var t := view;
      ghost var found := node;
      TargetTest(t, key, node);
      if node.isLeaf { node := node.parent; }
      vec := GreedyMatchBelow(node, vec);
      NoneMissed(t, key, found, vec);
      assert node in t.nodes && node in t.path;
    }

    // ---- Iteration ----

    /** The first leaf below a node. */
    method Descend(node: RadixNode) returns (leaf: RadixNode)
      requires Valid() && root != null && node in view.nodes
      requires node == root ==> node.children != map[]
      ensures leaf in view.nodes && IsFirst(view, LeavesUnder(view, node), leaf)
      decreases Subtree(view, node)
    {
      hide ValidBut, Subtree, LeavesUnder, IsFirst;
      ghost var t := view;
      if node.isLeaf {
        LeafAlone(t, node);
        return node;
      }
      if node != root { InnerHasChildren(t, node); }
      var k := Least(node.children.Keys);
      SubtreeShrinks(t, node, k);
      leaf := Descend(node.children[k]);
      FirstBelow(t, node, k, leaf);
    }

    /** begin(): the leaf of the first key; never on a tree whose keys were all erased, where the source asserts. */
    method Begin() returns (first: RadixNode?)
      requires Valid() && (root == null || Model() != map[])
      ensures root == null <==> first == null
      ensures first != null ==> first in view.nodes && IsStart(view, first)
    {
      hide ValidBut, LeavesUnder, IsFirst;
      if root == null { return null; }
      RootHasChildren(view);
      first := Descend(root);
    }

    /** operator++: the leaf of the next key, or none after the last. */
    method Increment(node: RadixNode) returns (next: RadixNode?)
      requires Valid() && root != null && node in view.nodes
      ensures next != null ==> next in view.nodes
      ensures IsNext(view, node, next)
      decreases Rank(view, node)
    {
      hide ValidBut, LeavesUnder, IsNext, IsFirst, Hangs, Rank;
      ghost var t := view;
      UpFrom(t, node);
      var parent := node.parent;
      if parent == null { return null; }
      var rest := After(parent.children.Keys, node.key);
      if rest == {} {
        next := Increment(parent);
        NextAbove(t, node, next);
      } else {
        var k := Least(rest);
        ghost var c := ChildOf(t, parent, k);
        next := Descend(parent.children[k]);
        NextBeside(t, node, k, next);
      }
    }

    /** Going through the whole tree: for (it = begin(); it != end(); ++it). */
    method Traverse() returns (vec: seq<RadixNode>)
      requires Valid() && (root == null || Model() != map[])
      ensures forall n | n in vec :: n in view.nodes && n.isLeaf
      ensures root == null ==> vec == []
      ensures root != null ==> Ascending(view, vec) && PathsOf(view, vec) == Model().Keys && |vec| == size
    {
      hide ValidBut, IsStart, Walking, IsNext, Remaining, Ascending, PathsOf;
      vec := [];
      var it := Begin();
      if it == null { return; }
      ghost var t := view;
      StartsFirst(t, it);
      while it != null
        invariant it != null ==> it in view.nodes
        invariant Walking(t, vec, it)
        decreases Remaining(t, it)
      {
        var next := Increment(it);
        PassesOn(t, vec, it, next);
        vec := vec + [it];
        it := next;
      }
      SpellsAll(t, vec);
    }

    // ---- Insertion ----

    /** A new leaf below a node. */
    method HangLeaf(parent: RadixNode, depth: nat, nul: string, key: string, value: int) returns (leaf: RadixNode)
      requires Synced() && Known(view) && parent in view.nodes && depth == |view.path[parent]| && nul == ""
      modifies `view, parent
      ensures Synced() && fresh(leaf) && view == Attach(old(view), parent, leaf, Value(key, value), "")
    {
      leaf := new RadixNode.Below(Value(key, value), parent, depth, nul, true);
      parent.children := parent.children[nul := leaf];
      view := Attach(view, parent, leaf, Value(key, value), nul);
    }

    /** A new inner node below `parent`; it may carry a value of its own, which nothing reads. */
    method HangBranch(parent: RadixNode, depth: nat, edge: string, held: Value) returns (branch: RadixNode)
      requires Synced() && Known(view) && parent in view.nodes && depth == |view.path[parent]| && edge != ""
      modifies `view, parent
      ensures Synced() && fresh(branch) && view == Attach(old(view), parent, branch, held, edge)
    {
      branch := new RadixNode.Below(held, parent, depth, edge, false);
      parent.children := parent.children[edge := branch];
      view := Attach(view, parent, branch, held, edge);
    }

    /** A new inner node with the leaf of a key below it. */
    method HangKey(parent: RadixNode, depth: nat, rest: string, held: Value, key: string, value: int)
      returns (leaf: RadixNode, ghost branch: RadixNode)
      requires Synced() && CanHang(view, parent, depth, rest, key)
      modifies `view, parent
      ensures Synced() && fresh(branch) && fresh(leaf) && leaf != branch
      ensures parent in old(view.nodes) && parent in old(view.path)
      ensures branch in Attach(old(view), parent, branch, held, rest).nodes
      ensures branch in Attach(old(view), parent, branch, held, rest).path
      ensures view == Attach(Attach(old(view), parent, branch, held, rest), branch, leaf, Value(key, value), "")
    {
      hide Attach;
      ghost var t := view;
      var inner := HangBranch(parent, depth, rest, held);
      branch := inner;
      AttachedBranch(t, parent, branch, held, rest, key);
      leaf := HangLeaf(inner, depth + |rest|, Substr(key, 0, 0), key, value);
    }

    /** Adds a key below a node that spells a prefix of it, through a new inner node unless it spells all of it. */
    method Append(parent: RadixNode, key: string, value: int) returns (leaf: RadixNode)
      requires Synced() && ValidTree(view) && Stops(view, key, parent) && key !in Model()
      modifies `view, view.nodes.Keys
      ensures Synced() && Gained(old(view), view, key, value)
      ensures forall n | n in view.nodes && n !in old(view.nodes) :: fresh(n)
      ensures leaf in view.nodes && leaf.isLeaf && leaf.value == Value(key, value)
    {
      hide ValidBut, Contents, Gained, Attach, Free, Hangs, Stops;
      ghost var t := view;
      CanAppend(t, key, parent);
      var depth := parent.depth + |parent.key|;
      var len := |key| - depth;
      if len == 0 {
        leaf := HangLeaf(parent, depth, Substr(key, 0, 0), key, value);
        AppendsLeaf(t, key, parent, leaf, value);
      } else {
        var rest := Substr(key, depth, len);
        ghost var branch;
        leaf, branch := HangKey(parent, depth, rest, Value(key, value), key, value);
        AppendsBranch(t, key, parent, branch, leaf, rest, value);
      }
    }

    /** A new inner node takes the place of `node` and the first `count` letters of its label. */
    method PutHead(node: RadixNode, count: nat) returns (head: RadixNode)
      requires Synced() && node in view.nodes && node.parent != null && node.parent in view.nodes
      requires node.parent in view.path && count <= |node.key|
      modifies `view, node.parent
      ensures Synced() && fresh(head) && view == Headed(old(view), node, head, count)
    {
      SubstrHalves(node.key, count);
      var parent: RadixNode := node.parent;
      parent.children := parent.children - {node.key};
      head := new RadixNode.Below(NoValue, parent, node.depth, Substr(node.key, 0, count), false);
      parent.children := parent.children[head.key := head];
      view := Headed(view, node, head, count);
    }

    /** A node gets another place in the tree, in memory and in the view. */
    method Move(node: RadixNode, parent: RadixNode, depth: nat, key: string)
      requires Synced() && node in view.nodes
      modifies `view, node
      ensures Synced() && view == old(view).(nodes := view.nodes)
      ensures view.nodes ==
              old(view).nodes[node := old(view).nodes[node].(parent := parent, depth := depth, key := key)]
    {
      node.MoveTo(parent, depth, key);
      view := view.(nodes := view.nodes[node := node.Data()]);
    }

    /** A node gets one more child. */
    method Adopt(node: RadixNode, key: string, child: RadixNode)
      requires Synced() && node in view.nodes
      modifies `view, node
      ensures Synced() && view == old(view).(nodes := view.nodes)
      ensures var d := old(view).nodes[node];
              view.nodes == old(view).nodes[node := d.(children := d.children[key := child])]
    {
      node.children := node.children[key := child];
      view := view.(nodes := view.nodes[node := node.Data()]);
    }

    /** Cuts the label of a node after `count` letters; the new inner node takes the head. */
    method CutLabel(node: RadixNode, count: nat) returns (head: RadixNode)
      requires Synced() && node in view.nodes && node.parent != null && node.parent in view.nodes
      requires node.parent in view.path && node.parent != node && count <= |node.key|
      modifies `view, node, node.parent
      ensures Synced() && fresh(head) && view == Split(old(view), node, head, count)
    {
      hide Headed, Split;
      SubstrHalves(node.key, count);
      ghost var t := view;
      var depth, rest := node.depth + count, Substr(node.key, count, |node.key| - count);
      head := PutHead(node, count);
      HeadedNodes(t, node, head, count);
      Move(node, head, depth, rest);
      Adopt(head, rest, node);
      SplitNodes(t, node, head, count, view);
    }

    /** How far a node's label goes along with the key. */
    method PartingPoint(node: RadixNode, key: string) returns (count: nat)
      requires Synced() && ValidTree(view) && Splits(view, key, node)
      ensures Parts(view, key, node, count) && count <= |node.key| && node.depth + count <= |key|
    {
      hide ValidBut, Splits, Parts;
      SplitSite(view, key, node);
      var len1, len2 := |node.key|, |key| - node.depth;
      count := 0;
      while count < len1 && count < len2 && node.key[count] == key[count + node.depth]
        invariant 0 <= count <= len1 && count <= len2
        invariant forall i | 0 <= i < count :: node.key[i] == key[node.depth + i]
      {
        count := count + 1;
      }
      FindsParting(view, key, node, count);
    }

    /** After the cut: the key ends at the head, or goes on from it along a branch. */
    method HangRest(ghost t: Tree, node: RadixNode, head: RadixNode, count: nat, key: string, value: int)
      returns (leaf: RadixNode)
      requires Synced() && WasCut(t, view, key, node, head, count)
      modifies `view, head
      ensures Synced() && Gained(t, view, key, value)
      ensures forall n | n in view.nodes && n !in t.nodes :: n == head || fresh(n)
      ensures leaf in view.nodes && leaf.isLeaf && leaf.value == Value(key, value)
    {
      hide WasCut, Gained, Attach, Substr, CanHang;
      CutDepths(t, view, key, node, head, count);
      SubstrHalves(key, 0);
      SubstrHalves(key, node.depth);
      ghost var u := view;
      if node.depth == |key| {
        leaf := HangLeaf(head, head.depth + count, Substr(key, 0, 0), key, value);
        PrependsLeaf(t, u, key, node, head, count, leaf, value);
      } else {
        var rest := Substr(key, node.depth, |key| - node.depth);
        ghost var branch;
        leaf, branch := HangKey(head, node.depth, rest, NoValue, key, value);
        PrependsBranch(t, u, key, node, head, count, branch, leaf, rest, value);
      }
    }

    /** Adds a key that parts from a node's path inside its label: the label is cut where they part. */
    method Prepend(node: RadixNode, key: string, value: int) returns (leaf: RadixNode)
      requires Synced() && ValidTree(view) && Splits(view, key, node) && key !in Model()
      modifies `view, view.nodes.Keys
      ensures Synced() && Gained(old(view), view, key, value)
      ensures forall n | n in view.nodes && n !in old(view.nodes) :: fresh(n)
      ensures leaf in view.nodes && leaf.isLeaf && leaf.value == Value(key, value)
    {
      hide ValidBut, Contents, Gained, Split, Hangs, Splits, Parts;
      ghost var t := view;
      SplitSite(t, key, node);
      var count := PartingPoint(node, key);
      var head := CutLabel(node, count);
      leaf := HangRest(t, node, head, count, key, value);
    }

    /** The first insertion makes the root. */
    method Plant()
      requires Valid()
      modifies `root, `view
      ensures Valid() && root != null && Model() == old(Model())
      ensures old(root) != null ==> view == old(view)
      ensures old(root) == null ==> fresh(root) && view.nodes.Keys == {root}
    {
      hide ValidBut;
      if root == null {
        root := new RadixNode(NoValue);
        view := Seed(root);
        SeedValid(root);
      }
    }

    /** Adds a key where the search for it ended. */
    method AddAt(node: RadixNode, key: string, value: int) returns (leaf: RadixNode)
      requires Synced() && root != null && ValidTree(view) && Located(view, key, node) && node in view.nodes
      requires !node.isLeaf
      modifies `view, view.nodes.Keys
      ensures Synced() && Gained(old(view), view, key, value)
      ensures forall n | n in view.nodes && n !in old(view.nodes) :: fresh(n)
      ensures leaf in view.nodes && leaf.isLeaf && leaf.value == Value(key, value)
    {
      hide ValidBut, Contents, Gained, Located, Stops, Splits;
      InsertCase(view, key, node);
      if node == root {
        leaf := Append(node, key, value);
      } else if Substr(key, node.depth, |node.key|) == node.key {
        leaf := Append(node, key, value);
      } else {
        leaf := Prepend(node, key, value);
      }
    }

    /** Stores a new key; a key already there keeps its value. */
    method Insert(key: string, value: int) returns (node: RadixNode, added: bool)
      requires Valid()
      modifies this, view.nodes.Keys
      ensures Valid() && root != null
      ensures added <==> key !in old(Model())
      ensures Model() == if added then old(Model())[key := value] else old(Model())
      ensures node in view.nodes && node.isLeaf && node.value == Value(key, Model()[key])
      ensures forall n | n in view.nodes && n !in old(view.nodes) :: fresh(n)
    {
      hide ValidBut, Contents, Gained, Located;
      Plant();
      ghost var t := view;
      node := FindNode(key);
      LocatedDecides(t, key, node);
      if node.isLeaf { return node, false; }
      size := size + 1;
      node := AddAt(node, key, value);
      added := true;
      GainedOne(t, view, key, value);
    }

    /** operator[]: the node of a key, stored with the value 0 if it was not there. */
    method Index(key: string) returns (node: RadixNode)
      requires Valid()
      modifies this, view.nodes.Keys
      ensures Valid() && node in view.nodes && node.isLeaf
      ensures Model() == if key in old(Model()) then old(Model()) else old(Model())[key := 0]
      ensures node.value == Value(key, Model()[key])
      ensures forall n | n in view.nodes && n !in old(view.nodes) :: fresh(n)
    {
      hide ValidBut, Contents;
      var it := Find(key);
      if it == null {
        var added: bool;
        node, added := Insert(key, 0);
      } else {
        node := it;
      }
    }

    /** An assignment through the reference that operator[] returns. */
    method AssignAt(key: string, value: int) returns (node: RadixNode)
      requires Valid()
      modifies this, view.nodes.Keys
      ensures Valid() && node in view.nodes && node.isLeaf
      ensures Model() == old(Model())[key := value]
      ensures node.value == Value(key, value)
      ensures forall n | n in view.nodes && n !in old(view.nodes) :: fresh(n)
    {
      hide ValidBut, Contents;
      node := Index(key);
      RootThere(node);
      AssignedKeeps(view, node, value);
      node.value := Value(key, value);
      view := Assigned(view, node, value);
    }

    lemma RootThere(node: RadixNode)
      requires Valid() && node in view.nodes
      ensures root != null
    {
    }

    // ---- Removal ----

    /** Cuts a childless node off its parent and frees it. */
    method Unhang(node: RadixNode)
      requires Synced() && Removable(view, node)
      modifies `view, node.parent
      ensures Synced() && view == Detach(old(view), node)
    {
      var parent: RadixNode := node.parent;
      parent.children := parent.children - {node.key};
      view := Detach(view, node);
    }

    /** Gives the place of a node to its sole child, joining the labels, and frees it. */
    method MergeUp(node: RadixNode, uncle: RadixNode)
      requires Synced() && CanMergeAt(view, node, uncle)
      modifies `view, node, uncle, node.parent
      ensures Synced() && view == Merge(old(view), node, uncle)
    {
      ghost var t := view;
      var parent: RadixNode := node.parent;
      uncle.MoveTo(parent, node.depth, node.key + uncle.key);
      node.children := map[];
      parent.children := parent.children - {node.key};
      parent.children := parent.children[uncle.key := uncle];
      view := Merge(t, node, uncle);
      assert uncle.Data() == view.nodes[uncle];
      assert parent.Data() == view.nodes[parent];
    }

    /** The last step of an erasure: an inner node left with one inner child is merged with it. */
    method Settle(node: RadixNode, ghost rest: map<string, int>)
      requires Synced() && root != null && node in view.nodes && Erasing(view, node, rest)
      requires node == root || node.children != map[]
      modifies `view, view.nodes.Keys
      ensures Synced() && Erased(view, rest) && view.nodes.Keys <= old(view.nodes.Keys)
    {
      hide Erasing, Erased, Merge, CanMergeAt;
      if node == root {
        EraseSettles(view, node, rest);
        return;
      }
      if |node.children| == 1 {
        var it := Least(node.children.Keys);
        var uncle := node.children[it];
        EraseChild(view, node, it, rest);
        if uncle.isLeaf {
          EraseSettles(view, node, rest);
          return;
        }
        EraseMerges(view, node, it, uncle, rest);
        MergeUp(node, uncle);
      } else {
        EraseSettles(view, node, rest);
      }
    }

    /** After the leaf is gone: its parent goes too if it is left empty. */
    method Prune(parent: RadixNode, ghost rest: map<string, int>)
      requires Synced() && root != null && parent in view.nodes && Erasing(view, parent, rest)
      modifies `view, view.nodes.Keys
      ensures Synced() && Erased(view, rest) && view.nodes.Keys <= old(view.nodes.Keys)
    {
      hide Erasing, Erased, Detach, Removable;
      if parent == root || |parent.children| > 1 {
        EraseSettles(view, parent, rest);
        return;
      }
      var grandparent: RadixNode := parent;
      if parent.children == map[] {
        EraseBranch(view, parent, rest);
        grandparent := parent.parent;
        Unhang(parent);
      }
      Settle(grandparent, rest);
    }

    /** Removes a key, then the inner node it leaves empty, then an inner node left with one inner child. */
    method Erase(key: string) returns (found: bool)
      requires Valid()
      modifies this, view.nodes.Keys
      ensures Valid()
      ensures found <==> key in old(Model())
      ensures Model() == old(Model()) - {key}
      ensures view.nodes.Keys <= old(view.nodes.Keys)
    {
      hide ValidBut, Contents, Located, Erasing, Detach, Removable;
      NothingStored();
      if root == null { return false; }
      ghost var t := view;
      ghost var rest := Contents(t) - {key};
      var child := FindNode(key);
      LocatedDecides(t, key, child);
      if !child.isLeaf { return false; }
      EraseLeaf(t, key, child);
      var parent: RadixNode := child.parent;
      Unhang(child);
      size := size - 1;
      found := true;
      Prune(parent, rest);
    }

    // ---- Runs ----

    method Perform(op: TreeOp) returns (answer: Answer)
      requires Valid()
      modifies this, view.nodes.Keys
      ensures Valid() && (Model(), answer) == Applied(old(Model()), op)
      ensures op.InsertOp? || op.EraseOp? ==> (answer == Changed(true) <==> Model() != old(Model()))
      ensures op.FindOp? ==> answer == if op.key in Model() then Found(Model()[op.key]) else Missing
      ensures op.IndexOp? || op.AssignOp? ==> op.key in Model() && answer == Found(Model()[op.key])
      ensures forall n | n in view.nodes && n !in old(view.nodes) :: fresh(n)
    {
      hide ValidBut, Contents;
      match op
      case InsertOp(key, value) =>
        var node: RadixNode;
        var changed;
        node, changed := Insert(key, value);
        answer := Changed(changed);
      case EraseOp(key) =>
        var found := Erase(key);
        answer := Changed(found);
      case FindOp(key) =>
        var node := Find(key);
        answer := if node == null then Missing else Found(node.value.second);
      case IndexOp(key) =>
        var node := Index(key);
        answer := Found(node.value.second);
      case AssignOp(key, value) =>
        var node := AssignAt(key, value);
        answer := Found(node.value.second);
    }

    /** Any run of operations gives the answers of a plain map and ends with its contents. */
    method Run(ops: seq<TreeOp>) returns (answers: seq<Answer>)
      requires Valid()
      modifies this, view.nodes.Keys
      ensures Valid() && (Model(), answers) == Replayed(old(Model()), ops)
      ensures forall n | n in view.nodes && n !in old(view.nodes) :: fresh(n)
    {
      hide ValidBut, Contents, Applied;
      answers := [];
      var i := 0;
      while i < |ops|
        invariant 0 <= i <= |ops| && Valid()
        invariant (Model(), answers) == Replayed(old(Model()), ops[..i])
        invariant forall n | n in view.nodes && n !in old(view.nodes) :: fresh(n)
      {
        var answer := Perform(ops[i]);
        assert ops[..i + 1][..i] == ops[..i];
        answers := answers + [answer];
        i := i + 1;
      }
      assert ops[..i] == ops;
    }
  }
}
