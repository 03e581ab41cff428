/**
 * What a search in a radix tree says about the keys: where a key is or would be, which keys
 * it begins, which keys begin it, and in which order the leaves stand.
 */
module RadixSearch {
  import opened Lexicographic
  import opened RadixNodes

  // ---- Where a search for a key ends ----

  /** std::string::substr: at most `num` letters from `begin` on. */
  function Substr(key: string, begin: nat, num: nat): string
    requires begin <= |key|
  {
    if num <= |key| - begin then key[begin..begin + num] else key[begin..]
  }

  lemma SubstrHalves(key: string, count: nat)
    requires count <= |key|
    ensures Substr(key, 0, count) == key[..count] && Substr(key, count, |key| - count) == key[count..]
  {
  }

  /** Label k continues the key after `depth` letters: the empty label where the key ends. */
  predicate LeadsOn(key: string, depth: nat, k: string) {
    depth <= |key| && if depth == |key| then k == "" else k != "" && k[0] == key[depth]
  }

  /** The search matched all of n's path and no child of n leads on. */
  ghost predicate Stops(t: Tree, key: string, n: RadixNode) {
    && Known(t) && n in t.nodes && !t.nodes[n].isLeaf && t.path[n] <= key
    && forall k | k in t.nodes[n].children :: !LeadsOn(key, |t.path[n]|, k)
  }

  /** The search matched the path of n's parent and part of n's label. */
  ghost predicate Splits(t: Tree, key: string, n: RadixNode) {
    && Known(t) && n in t.nodes && n != t.root && !t.nodes[n].isLeaf && t.nodes[n].parent in t.nodes
    && var above := t.path[t.nodes[n].parent];
       above <= key && |above| < |key| && t.nodes[n].key != "" && t.nodes[n].key[0] == key[|above|]
       && !(t.path[n] <= key)
  }

  lemma ChildOf(t: Tree, n: RadixNode, k: string) returns (c: RadixNode)
    requires ValidTree(t) && n in t.nodes && k in t.nodes[n].children
    ensures c == t.nodes[n].children[k] && c in t.nodes && c != t.root
    ensures t.nodes[c].key == k && t.nodes[c].parent == n && (t.nodes[c].isLeaf <==> k == "")
  {
    c := ChildUnder(t, n, k);
  }

  /** Where find_node ends: at the key's own leaf, or where the key would be added. */
  ghost predicate Located(t: Tree, key: string, n: RadixNode) {
    || (Known(t) && n in t.nodes && t.nodes[n].isLeaf && t.path[n] == key)
    || Stops(t, key, n)
    || Splits(t, key, n)
  }

  /** An inner node on the key's track. */
  ghost predicate Reached(t: Tree, key: string, n: RadixNode) {
    Known(t) && n in t.nodes && !t.nodes[n].isLeaf && t.path[n] <= key
  }

  lemma SearchStarts(t: Tree, key: string)
    requires ValidTree(t)
    ensures Reached(t, key, t.root) && t.path[t.root] == ""
  {
    assert Hangs(t, t.root);
  }

  lemma SearchStops(t: Tree, key: string, n: RadixNode)
    requires Reached(t, key, n) && forall k | k in t.nodes[n].children :: !LeadsOn(key, |t.path[n]|, k)
    ensures Located(t, key, n)
  {
  }

  /** One step of the search, from n to the child whose label leads on. */
  lemma SearchStep(t: Tree, key: string, n: RadixNode, k: string) returns (c: RadixNode)
    requires ValidTree(t) && Reached(t, key, n)
    requires k in t.nodes[n].children && LeadsOn(key, |t.path[n]|, k)
    ensures c == t.nodes[n].children[k] && c in t.nodes && t.nodes[c].key == k
    ensures t.nodes[c].isLeaf ==> Located(t, key, c)
    ensures !t.nodes[c].isLeaf ==>
      if Substr(key, |t.path[n]|, |k|) == k then Reached(t, key, c) && k != "" && |t.path[c]| == |t.path[n]| + |k|
      else Located(t, key, c)
  {
    c := ChildUnder(t, n, k);
    PrefixStep(t.path[n], k, key);
  }

  lemma PrefixStep(p: string, k: string, key: string)
    requires p <= key
    ensures p + k <= key <==> Substr(key, |p|, |k|) == k
  {
    if p + k <= key {
      assert key[|p|..|p| + |k|] == (p + k)[|p|..];
    }
    if Substr(key, |p|, |k|) == k {
      assert key[..|p| + |k|] == key[..|p|] + k;
    }
  }

  /** The last node whose whole path the key begins with. */
  ghost function Base(t: Tree, key: string, n: RadixNode): RadixNode
    requires Shape(t) && Located(t, key, n)
    ensures Base(t, key, n) in t.nodes && !t.nodes[Base(t, key, n)].isLeaf && t.path[Base(t, key, n)] <= key
  {
    assert Hangs(t, n);
    if Stops(t, key, n) then n
    else assert Hangs(t, t.nodes[n].parent); t.nodes[n].parent
  }

  /** Testing the label against the key tells whether the search matched all of it. */
  lemma WholeLabel(t: Tree, key: string, n: RadixNode)
    requires Shape(t) && Located(t, key, n) && !t.nodes[n].isLeaf
    ensures t.nodes[n].depth <= |key| && (Stops(t, key, n) <==> Base(t, key, n) == n)
    ensures Base(t, key, n) ==
            if Substr(key, t.nodes[n].depth, |t.nodes[n].key|) == t.nodes[n].key then n else t.nodes[n].parent
  {
    assert Hangs(t, n);
    if n != t.root {
      assert Hangs(t, t.nodes[n].parent);
      var above := t.path[t.nodes[n].parent];
      assert above <= t.path[n] && |above| == t.nodes[n].depth;
      PrefixStep(above, t.nodes[n].key, key);
    }
  }

  /** A node below the base on the key's own track is the leaf itself, or the child whose label splits. */
  lemma BelowBase(t: Tree, key: string, n: RadixNode, m: RadixNode)
    requires Shape(t) && Located(t, key, n) && m in t.nodes
    requires Under(t, Base(t, key, n), m) && m != Base(t, key, n)
    requires t.path[m] <= key || key <= t.path[m]
    requires |key| > |t.path[Base(t, key, n)]| && (t.nodes[m].isLeaf ==> |t.path[m]| > |t.path[Base(t, key, n)]|)
    ensures Splits(t, key, n) && Under(t, n, m)
  {
    var b := Base(t, key, n);
    var c := ChildToward(t, b, m);
    assert Hangs(t, c) && Hangs(t, n) && Holds(t, b);
    if t.nodes[c].key == "" { UnderPath(t, c, m); }
    assert t.path[c][|t.path[b]|] == t.path[m][|t.path[b]|] == key[|t.path[b]|];
    assert Splits(t, key, n) ==> c == n;
  }

  lemma NoOtherLeaf(t: Tree, key: string, n: RadixNode)
    requires Shape(t) && Keyed(t) && Located(t, key, n) && key in t.leafOf
    ensures t.nodes[n].isLeaf
  {
    if !t.nodes[n].isLeaf {
      var b := Base(t, key, n);
      var m := t.leafOf[key];
      Nested(t, b, m);
      if |key| > |t.path[b]| {
        BelowBase(t, key, n, m);
        UnderPath(t, n, m);
      } else {
        var c := ChildToward(t, b, m);
      }
      assert false;
    }
  }

  /** A key is stored exactly if the search for it ends at a leaf, and then it is the key's leaf. */
  lemma LocatedDecides(t: Tree, key: string, n: RadixNode)
    requires ValidTree(t) && Located(t, key, n)
    ensures n in t.nodes && (key in Contents(t) <==> t.nodes[n].isLeaf)
    ensures t.nodes[n].isLeaf ==> t.nodes[n].value == Value(key, Contents(t)[key])
  {
    if key in t.leafOf { NoOtherLeaf(t, key, n); }
    assert Holds(t, n);
  }

  // ---- Keys that the key begins, and keys that begin it ----

  /** Every node spelling a prefix of the key lies on the way up from the base. */
  lemma PrefixesAbove(t: Tree, key: string, n: RadixNode, q: RadixNode)
    requires Shape(t) && Located(t, key, n)
    requires q in t.nodes && !t.nodes[q].isLeaf && t.path[q] <= key
    ensures Under(t, q, Base(t, key, n))
  {
    var b := Base(t, key, n);
    if t.path[q] <= t.path[b] {
      Nested(t, q, b);
    } else {
      Nested(t, b, q);
      BelowBase(t, key, n, q);
      UnderPath(t, n, q);
      assert false;
    }
  }

  /** The node at which a stored key ends: the parent of its leaf. */
  ghost function EndOf(t: Tree, k: string): RadixNode?
    requires k in t.leafOf
  {
    if t.leafOf[k] in t.nodes then t.nodes[t.leafOf[k]].parent else null
  }

  lemma EndsThere(t: Tree, k: string)
    requires Shape(t) && Keyed(t) && k in t.leafOf
    ensures EndOf(t, k) in t.nodes && !t.nodes[EndOf(t, k)].isLeaf && t.path[EndOf(t, k)] == k
    ensures "" in t.nodes[EndOf(t, k)].children && t.nodes[EndOf(t, k)].children[""] == t.leafOf[k]
  {
    assert Hangs(t, t.leafOf[k]);
  }

  /** The climb to the longest match: whatever stored key begins the given one ends at n or above. */
  ghost predicate Climbing(t: Tree, key: string, n: RadixNode?) {
    && (n != null ==> Reached(t, key, n))
    && forall k | k in t.leafOf && k <= key :: n != null && EndOf(t, k) != null && Under(t, EndOf(t, k), n)
  }

  lemma ClimbStarts(t: Tree, key: string, n: RadixNode)
    requires ValidTree(t) && Located(t, key, n) && n in t.nodes && !t.nodes[n].isLeaf
    ensures t.nodes[n].depth <= |key|
    ensures var d := t.nodes[n];
            Climbing(t, key, if Substr(key, d.depth, |d.key|) == d.key then n else d.parent)
  {
    WholeLabel(t, key, n);
    var b := Base(t, key, n);
    forall k | k in t.leafOf && k <= key
      ensures EndOf(t, k) != null && Under(t, EndOf(t, k), b)
    {
      EndsThere(t, k);
      PrefixesAbove(t, key, n, EndOf(t, k));
    }
  }

  lemma ClimbsHigher(t: Tree, key: string, n: RadixNode)
    requires ValidTree(t) && Climbing(t, key, n)
    requires "" in t.nodes[n].children ==>
               t.nodes[n].children[""] in t.nodes && !t.nodes[t.nodes[n].children[""]].isLeaf
    ensures Climbing(t, key, t.nodes[n].parent)
    ensures t.nodes[n].parent != null ==> Rank(t, t.nodes[n].parent) < Rank(t, n)
  {
    assert Hangs(t, n);
    if n != t.root {
      ParentRank(t, n);
      assert Hangs(t, t.nodes[n].parent);
    }
    forall k | k in t.leafOf && k <= key
      ensures EndOf(t, k) != n && t.nodes[n].parent != null && Under(t, EndOf(t, k), t.nodes[n].parent)
    {
      EndsThere(t, k);
    }
  }

  lemma ClimbEnds(t: Tree, key: string, n: RadixNode) returns (c: RadixNode)
    requires ValidTree(t) && Climbing(t, key, n) && "" in t.nodes[n].children
    ensures c == t.nodes[n].children[""] && c in t.nodes && t.nodes[c].isLeaf && t.nodes[c].value.Value?
    ensures t.nodes[c].value.first in Contents(t) && t.nodes[c].value.first <= key
    ensures forall k | k in Contents(t) && k <= key :: |k| <= |t.nodes[c].value.first|
  {
    c := ChildUnder(t, n, "");
    assert Holds(t, c);
    forall k | k in t.leafOf && k <= key
      ensures |k| <= |t.path[n]|
    {
      EndsThere(t, k);
      UnderPath(t, EndOf(t, k), n);
    }
  }

  /** Comparing the rest of the key with a node's label, as far as both go, compares the key with its path. */
  lemma LabelDecides(key: string, path: string, depth: nat)
    requires depth <= |key| && depth <= |path| && key[..depth] == path[..depth]
    ensures var len := |key| - depth; var tag := path[depth..];
      key[depth..] == tag[..if len <= |tag| then len else |tag|] <==> key <= path
  {
    var len, tag := |key| - depth, path[depth..];
    var cut := if len <= |tag| then len else |tag|;
    if key[depth..] == tag[..cut] {
      assert key == key[..depth] + key[depth..] && path[..|key|] == path[..depth] + tag[..cut];
    }
    if key <= path {
      assert path[..|key|][depth..] == tag[..cut];
    }
  }

  /** The node below which prefix_match looks: a leaf is replaced by its parent. */
  ghost function Target(t: Tree, n: RadixNode): RadixNode {
    if n in t.nodes && t.nodes[n].isLeaf && t.nodes[n].parent != null then t.nodes[n].parent else n
  }

  lemma TargetKnown(t: Tree, key: string, n: RadixNode)
    requires Shape(t) && Located(t, key, n)
    ensures Target(t, n) in t.nodes && !t.nodes[Target(t, n)].isLeaf
    ensures t.nodes[Target(t, n)].depth <= |key| && t.nodes[Target(t, n)].depth <= |t.path[Target(t, n)]|
    ensures key[..t.nodes[Target(t, n)].depth] == t.path[Target(t, n)][..t.nodes[Target(t, n)].depth]
    ensures t.path[Target(t, n)][t.nodes[Target(t, n)].depth..] == t.nodes[Target(t, n)].key
  {
    var r := Target(t, n);
    assert Hangs(t, n) && Hangs(t, r);
    if r != t.root { assert Hangs(t, t.nodes[r].parent); }
  }

  /** The test of prefix_match tells whether the target's path begins with the key. */
  lemma TargetTest(t: Tree, key: string, n: RadixNode)
    requires ValidTree(t) && Located(t, key, n)
    ensures Target(t, n) in t.nodes && t.nodes[Target(t, n)].depth <= |key|
    ensures var d := t.nodes[Target(t, n)];
      Substr(key, d.depth, |key| - d.depth) == Substr(d.key, 0, |key| - d.depth) <==> key <= t.path[Target(t, n)]
    ensures n in t.nodes && Target(t, n) == if t.nodes[n].isLeaf then t.nodes[n].parent else n
  {
    TargetKnown(t, key, n);
    assert Hangs(t, n);
    LabelDecides(key, t.path[Target(t, n)], t.nodes[Target(t, n)].depth);
  }

  /** The keys that begin with the given one are those of the leaves below the target, if its path does. */
  lemma Completions(t: Tree, key: string, n: RadixNode, m: RadixNode)
    requires Shape(t) && Located(t, key, n) && m in t.nodes && t.nodes[m].isLeaf
    ensures Target(t, n) in t.nodes
    ensures key <= t.path[m] <==> key <= t.path[Target(t, n)] && Under(t, Target(t, n), m)
  {
    TargetKnown(t, key, n);
    var r := Target(t, n);
    if Under(t, r, m) { UnderPath(t, r, m); }
    if key <= t.path[m] {
      var b := Base(t, key, n);
      Nested(t, b, m);
      if |key| > |t.path[b]| {
        BelowBase(t, key, n, m);
        UnderPath(t, n, m);
      }
    }
  }

  // ---- Order of the leaves ----

  ghost function LeavesUnder(t: Tree, n: RadixNode): set<RadixNode> {
    set m | m in t.nodes && t.nodes[m].isLeaf && Under(t, n, m)
  }

  /** The leaves that come after n and everything below it. */
  ghost function Later(t: Tree, n: RadixNode): set<RadixNode>
    requires Known(t) && n in t.nodes
  {
    set m | m in t.nodes && t.nodes[m].isLeaf && !Under(t, n, m) && Less(t.path[n], t.path[m])
  }

  ghost predicate IsFirst(t: Tree, s: set<RadixNode>, r: RadixNode) {
    Known(t) && s <= t.nodes.Keys && r in s && forall m | m in s && m != r :: Less(t.path[r], t.path[m])
  }

  /** What ++ promises: the first later leaf, or none when there is none. */
  ghost predicate IsNext(t: Tree, n: RadixNode, r: RadixNode?) {
    && Known(t) && n in t.nodes
    && if Later(t, n) == {} then r == null else r != null && IsFirst(t, Later(t, n), r)
  }

  /** Everything below the child labelled j comes before everything below the child labelled k. */
  lemma SiblingOrder(t: Tree, a: RadixNode, j: string, k: string, m: RadixNode, o: RadixNode)
    requires Shape(t) && a in t.nodes && j in t.nodes[a].children && k in t.nodes[a].children && Less(j, k)
    requires m in t.nodes && Under(t, t.nodes[a].children[j], m)
    requires o in t.nodes && Under(t, t.nodes[a].children[k], o)
    ensures Less(t.path[m], t.path[o])
  {
    var c := ChildUnder(t, a, j);
    var d := ChildUnder(t, a, k);
    assert Forked(t.nodes[a].children) by { assert Holds(t, a); }
    UnderPath(t, c, m);
    UnderPath(t, d, o);
    LessTrichotomy(j, j);
    assert j == "" ==> m == c;
    LessAhead(t.path[a], j, k, t.path[m], t.path[o]);
  }

  lemma LessAhead(p: string, j: string, k: string, x: string, y: string)
    requires p + j <= x && p + k <= y && k != ""
    requires if j == "" then x == p else j[0] < k[0]
    ensures Less(x, y)
  {
    var v, w := x[|p + j|..], y[|p + k|..];
    assert x == (p + j) + v == p + (j + v);
    assert y == (p + k) + w == p + (k + w);
    if j == "" { assert v == ""; }
    LessBelow(p, j + v, k + w);
  }

  /** A word outside everything p begins stands on one side of all of it. */
  lemma {:induction false} LessOutside(p: string, x: string, w: string)
    requires p <= x && !(p <= w)
    ensures Less(p, w) <==> Less(x, w)
    ensures Less(w, p) <==> Less(w, x)
  {
    if w != [] && p[0] == w[0] {
      assert p == [p[0]] + p[1..] && w == [w[0]] + w[1..] && x == [x[0]] + x[1..];
      LessOutside(p[1..], x[1..], w[1..]);
    }
  }

  lemma OutsideOrder(t: Tree, p: RadixNode, n: RadixNode, m: RadixNode)
    requires Shape(t) && p in t.nodes && !t.nodes[p].isLeaf && n in t.nodes && Under(t, p, n)
    requires m in t.nodes && !Under(t, p, m)
    ensures Less(t.path[p], t.path[m]) <==> Less(t.path[n], t.path[m])
  {
    UnderPath(t, p, n);
    if t.path[p] <= t.path[m] { Nested(t, p, m); }
    LessOutside(t.path[p], t.path[n], t.path[m]);
  }

  /** Below its parent, a node is followed by the children with greater labels. */
  lemma LaterSiblings(t: Tree, n: RadixNode, m: RadixNode)
    requires Shape(t) && n in t.nodes && n != t.root && m in t.nodes && t.nodes[m].isLeaf
    requires Hangs(t, n) && Under(t, t.nodes[n].parent, m)
    ensures m in Later(t, n) <==>
      exists k :: k in After(t.nodes[t.nodes[n].parent].children.Keys, t.nodes[n].key)
        && Under(t, t.nodes[t.nodes[n].parent].children[k], m)
  {
    var p := t.nodes[n].parent;
    var above := t.nodes[p].children;
    var c := ChildToward(t, p, m);
    var k := t.nodes[c].key;
    LessTrichotomy(t.nodes[n].key, k);
    if Less(t.nodes[n].key, k) {
      assert k in After(above.Keys, t.nodes[n].key) && Under(t, above[k], m);
      SiblingOrder(t, p, t.nodes[n].key, k, n, m);
      if Under(t, n, m) { SiblingOrder(t, p, t.nodes[n].key, k, m, m); LessTrichotomy(t.path[m], t.path[m]); }
    } else {
      if m in Later(t, n) {
        SiblingOrder(t, p, k, t.nodes[n].key, m, n);
        LessTrichotomy(t.path[m], t.path[n]);
        assert false;
      }
      forall i | i in After(above.Keys, t.nodes[n].key)
        ensures !Under(t, above[i], m)
      {
        LessTrichotomy(t.nodes[n].key, i);
        if k != t.nodes[n].key { LessTransitive(k, t.nodes[n].key, i); }
        if Under(t, above[i], m) { SiblingOrder(t, p, k, i, m, m); LessTrichotomy(t.path[m], t.path[m]); }
      }
    }
  }

  /** With no greater sibling, what follows a node is what follows its parent. */
  lemma ClimbsOn(t: Tree, n: RadixNode)
    requires ValidTree(t) && n in t.nodes && n != t.root && Hangs(t, n)
    requires After(t.nodes[t.nodes[n].parent].children.Keys, t.nodes[n].key) == {}
    ensures Later(t, n) == Later(t, t.nodes[n].parent)
  {
    var p := t.nodes[n].parent;
    assert Under(t, p, n) by { ParentRank(t, n); }
    forall m | m in t.nodes && t.nodes[m].isLeaf
      ensures m in Later(t, n) <==> m in Later(t, p)
    {
      if Under(t, p, m) {
        LaterSiblings(t, n, m);
      } else {
        if Under(t, n, m) { UnderTransitive(t, p, n, m); }
        OutsideOrder(t, p, n, m);
      }
    }
  }

  /** What follows a node begins with the first leaf below its next sibling c. */
  lemma TurnsDown(t: Tree, n: RadixNode, k: string, r: RadixNode)
    requires ValidTree(t) && n in t.nodes && n != t.root && Hangs(t, n)
    requires IsLeast(After(t.nodes[t.nodes[n].parent].children.Keys, t.nodes[n].key), k)
    requires IsFirst(t, LeavesUnder(t, t.nodes[t.nodes[n].parent].children[k]), r)
    ensures IsFirst(t, Later(t, n), r)
  {
    var p := t.nodes[n].parent;
    var above := t.nodes[p].children;
    assert Under(t, p, n) by { ParentRank(t, n); }
    var c := ChildUnder(t, p, k);
    UnderTransitive(t, p, c, r);
    LaterSiblings(t, n, r);
    assert r in Later(t, n);
    forall m | m in Later(t, n) && m != r
      ensures Less(t.path[r], t.path[m])
    {
      if Under(t, p, m) {
        LaterSiblings(t, n, m);
        var j :| j in After(above.Keys, t.nodes[n].key) && Under(t, above[j], m);
        if j != k { SiblingOrder(t, p, k, j, r, m); }
      } else {
        OutsideOrder(t, p, n, m);
        OutsideOrder(t, p, r, m);
      }
    }
  }

  /** The first leaf below an inner node is the first one below its first child. */
  lemma FirstBelow(t: Tree, n: RadixNode, k: string, r: RadixNode)
    requires ValidTree(t) && n in t.nodes && !t.nodes[n].isLeaf && IsLeast(t.nodes[n].children.Keys, k)
    requires IsFirst(t, LeavesUnder(t, t.nodes[n].children[k]), r)
    ensures IsFirst(t, LeavesUnder(t, n), r)
  {
    var c := ChildUnder(t, n, k);
    UnderTransitive(t, n, c, r);
    forall m | m in LeavesUnder(t, n) && m != r
      ensures Less(t.path[r], t.path[m])
    {
      var d := ChildToward(t, n, m);
      if d != c { SiblingOrder(t, n, k, t.nodes[d].key, r, m); }
    }
  }

  /** Below a leaf there is only the leaf. */
  lemma LeafAlone(t: Tree, n: RadixNode)
    requires ValidTree(t) && n in t.nodes && t.nodes[n].isLeaf
    ensures LeavesUnder(t, n) == {n}
    ensures Lists(t, [n], LeavesUnder(t, n)) && IsFirst(t, LeavesUnder(t, n), n)
  {
    forall m | m in LeavesUnder(t, n)
      ensures m == n
    {
      UnderPath(t, n, m);
    }
  }

  /** Nothing comes after the root and all that hangs from it. */
  lemma NothingAfterRoot(t: Tree)
    requires Shape(t)
    ensures Later(t, t.root) == {}
  {
    forall m | m in t.nodes
      ensures Under(t, t.root, m)
    {
      UnderRoot(t, m);
    }
  }

  /** The way up from a node. */
  lemma UpFrom(t: Tree, n: RadixNode)
    requires ValidTree(t) && n in t.nodes
    ensures Hangs(t, n) && (t.nodes[n].parent == null <==> n == t.root)
    ensures n != t.root ==>
      && t.nodes[n].parent in t.nodes && Rank(t, t.nodes[n].parent) < Rank(t, n)
      && t.nodes[n].key in t.nodes[t.nodes[n].parent].children
    ensures n == t.root ==> IsNext(t, n, null)
  {
    assert Hangs(t, n);
    if n == t.root { NothingAfterRoot(t); } else { ParentRank(t, n); }
  }

  /** No greater sibling: ++ continues from the parent. */
  lemma NextAbove(t: Tree, n: RadixNode, r: RadixNode?)
    requires ValidTree(t) && n in t.nodes && n != t.root && Hangs(t, n)
    requires After(t.nodes[t.nodes[n].parent].children.Keys, t.nodes[n].key) == {}
    requires IsNext(t, t.nodes[n].parent, r)
    ensures IsNext(t, n, r)
  {
    ClimbsOn(t, n);
  }

  /** The next sibling: ++ descends into it. */
  lemma NextBeside(t: Tree, n: RadixNode, k: string, r: RadixNode)
    requires ValidTree(t) && n in t.nodes && n != t.root && Hangs(t, n)
    requires IsLeast(After(t.nodes[t.nodes[n].parent].children.Keys, t.nodes[n].key), k)
    requires IsFirst(t, LeavesUnder(t, t.nodes[t.nodes[n].parent].children[k]), r)
    ensures IsNext(t, n, r)
  {
    TurnsDown(t, n, k, r);
  }

  // ---- Lists of leaves ----

  ghost predicate Ascending(t: Tree, s: seq<RadixNode>) {
    && Known(t) && (forall n | n in s :: n in t.nodes)
    && forall i, j | 0 <= i < j < |s| :: Less(t.path[s[i]], t.path[s[j]])
  }

  /** s lists exactly the leaves of `all`, each once, in the order of their keys. */
  ghost predicate Lists(t: Tree, s: seq<RadixNode>, all: set<RadixNode>) {
    (forall n | n in s :: n in all) && (forall n | n in all :: n in s) && Ascending(t, s)
  }

  ghost function PathsOf(t: Tree, s: seq<RadixNode>): set<string> {
    set n | n in s && n in t.path :: t.path[n]
  }

  /** What lies below the children with the labels not in `rest`, which come before those in it. */
  ghost predicate Visited(t: Tree, n: RadixNode, rest: set<string>, s: seq<RadixNode>) {
    && Known(t) && n in t.nodes && !t.nodes[n].isLeaf && rest <= t.nodes[n].children.Keys
    && (forall j, k | j in t.nodes[n].children && j !in rest && k in rest :: Less(j, k))
    && (forall m | m in s :: m in LeavesUnder(t, n))
    && (forall m | m in LeavesUnder(t, n) :: m in s <==>
          exists k :: k in t.nodes[n].children && k !in rest && Under(t, t.nodes[n].children[k], m))
    && Ascending(t, s)
  }

  lemma VisitStarts(t: Tree, n: RadixNode)
    requires ValidTree(t) && n in t.nodes && !t.nodes[n].isLeaf
    ensures Visited(t, n, t.nodes[n].children.Keys, [])
  {
  }

  /** Appending what lies below the next child keeps the list in order. */
  lemma VisitNext(t: Tree, n: RadixNode, rest: set<string>, k: string, s: seq<RadixNode>, more: seq<RadixNode>)
    requires ValidTree(t) && Visited(t, n, rest, s) && IsLeast(rest, k)
    requires Lists(t, more, LeavesUnder(t, t.nodes[n].children[k]))
    ensures Visited(t, n, rest - {k}, s + more)
  {
    var c := ChildUnder(t, n, k);
    forall m | m in more
      ensures m in LeavesUnder(t, n)
    {
      assert m in LeavesUnder(t, c);
      UnderTransitive(t, n, c, m);
    }
    forall m | m in LeavesUnder(t, n)
      ensures m in s + more <==>
              exists j :: j in t.nodes[n].children && j !in rest - {k} && Under(t, t.nodes[n].children[j], m)
    {
      assert m in more <==> m in LeavesUnder(t, c);
      if m in more { assert k in t.nodes[n].children && k !in rest - {k} && Under(t, t.nodes[n].children[k], m); }
    }
    var all := s + more;
    forall m | m in all
      ensures m in t.nodes
    {
      assert m in more ==> m in LeavesUnder(t, c);
    }
    forall i, j | 0 <= i < j < |all|
      ensures Less(t.path[all[i]], t.path[all[j]])
    {
      if i < |s| <= j {
        assert all[i] in s && all[j] in more && all[j] in LeavesUnder(t, c);
        var h :| h in t.nodes[n].children && h !in rest && Under(t, t.nodes[n].children[h], all[i]);
        SiblingOrder(t, n, h, k, all[i], all[j]);
      }
    }
  }

  /** All children visited: all leaves below. */
  lemma VisitedAll(t: Tree, n: RadixNode, s: seq<RadixNode>)
    requires ValidTree(t) && Visited(t, n, {}, s)
    ensures Lists(t, s, LeavesUnder(t, n))
  {
    forall m | m in LeavesUnder(t, n)
      ensures m in s
    {
      var c := ChildToward(t, n, m);
      assert t.nodes[c].key in t.nodes[n].children && Under(t, t.nodes[n].children[t.nodes[c].key], m);
    }
  }

  ghost function Subtree(t: Tree, n: RadixNode): set<RadixNode> {
    set m | m in t.nodes && Under(t, n, m)
  }

  lemma SubtreeShrinks(t: Tree, n: RadixNode, k: string)
    requires ValidTree(t) && n in t.nodes && k in t.nodes[n].children
    ensures t.nodes[n].children[k] in t.nodes && t.nodes[n].children[k] != t.root
    ensures Subtree(t, t.nodes[n].children[k]) < Subtree(t, n)
  {
    var c := ChildUnder(t, n, k);
    forall m | m in Subtree(t, c)
      ensures m in Subtree(t, n)
    {
      UnderTransitive(t, n, c, m);
    }
    assert n in Subtree(t, n) && n !in Subtree(t, c);
  }

  /** The leaves below the target spell the stored keys that the key begins. */
  lemma Completed(t: Tree, key: string, n: RadixNode, vec: seq<RadixNode>)
    requires ValidTree(t) && Located(t, key, n) && Target(t, n) in t.nodes
    requires if key <= t.path[Target(t, n)] then Lists(t, vec, LeavesUnder(t, Target(t, n))) else vec == []
    ensures forall m | m in vec :: m in t.nodes && t.nodes[m].isLeaf
    ensures Ascending(t, vec) && PathsOf(t, vec) == set k | k in Contents(t) && key <= k
  {
    forall m | m in vec
      ensures m in t.nodes && t.nodes[m].isLeaf && t.path[m] in t.leafOf && key <= t.path[m]
    {
      assert m in LeavesUnder(t, Target(t, n));
      Completions(t, key, n, m);
    }
    forall k | k in t.leafOf && key <= k
      ensures k in PathsOf(t, vec)
    {
      Completions(t, key, n, t.leafOf[k]);
      assert t.leafOf[k] in LeavesUnder(t, Target(t, n));
      assert t.leafOf[k] in vec && t.path[t.leafOf[k]] == k;
    }
  }

  /**
   * The leaves below the target spell the stored keys that begin with its path: no completion
   * is missed, whether or not that path begins with the key.
   */
  lemma NoneMissed(t: Tree, key: string, n: RadixNode, vec: seq<RadixNode>)
    requires ValidTree(t) && Located(t, key, n) && Target(t, n) in t.nodes
    requires Lists(t, vec, LeavesUnder(t, Target(t, n)))
    ensures forall m | m in vec :: m in t.nodes && t.nodes[m].isLeaf
    ensures Target(t, n) in t.path && Ascending(t, vec)
    ensures PathsOf(t, vec) == set k | k in Contents(t) && t.path[Target(t, n)] <= k
    ensures (set k | k in Contents(t) && key <= k) <= PathsOf(t, vec)
  {
    TargetKnown(t, key, n);
    var r := Target(t, n);
    forall m | m in vec
      ensures m in t.nodes && t.nodes[m].isLeaf && t.path[m] in t.leafOf && t.path[r] <= t.path[m]
    {
      assert m in LeavesUnder(t, r);
      UnderPath(t, r, m);
    }
    forall k | k in t.leafOf && t.path[r] <= k
      ensures k in PathsOf(t, vec)
    {
      Nested(t, r, t.leafOf[k]);
      assert t.leafOf[k] in LeavesUnder(t, r);
      assert t.leafOf[k] in vec && t.path[t.leafOf[k]] == k;
    }
    forall k | k in t.leafOf && key <= k
      ensures t.path[r] <= k
    {
      Completions(t, key, n, t.leafOf[k]);
      UnderPath(t, r, t.leafOf[k]);
    }
  }

  // ---- Going through the tree ----

  ghost function Leaves(t: Tree): set<RadixNode> {
    set m | m in t.nodes && t.nodes[m].isLeaf
  }

  /** The leaves before `it` have been passed, in order. */
  ghost predicate Passed(t: Tree, vec: seq<RadixNode>, it: RadixNode)
    requires Known(t)
  {
    it in Leaves(t) && Lists(t, vec, set m | m in Leaves(t) && Less(t.path[m], t.path[it]))
  }

  lemma AllBelowRoot(t: Tree)
    requires Shape(t)
    ensures LeavesUnder(t, t.root) == Leaves(t)
  {
    forall m | m in Leaves(t)
      ensures Under(t, t.root, m)
    {
      UnderRoot(t, m);
    }
  }

  lemma RootHasChildren(t: Tree)
    requires ValidTree(t) && Contents(t) != map[]
    ensures Known(t) && t.nodes[t.root].children != map[]
  {
    var k :| k in t.leafOf;
    assert Hangs(t, t.root);
    UnderRoot(t, t.leafOf[k]);
    var c := ChildToward(t, t.root, t.leafOf[k]);
  }

  lemma InnerHasChildren(t: Tree, n: RadixNode)
    requires ValidTree(t) && n in t.nodes && n != t.root && !t.nodes[n].isLeaf
    ensures t.nodes[n].children != map[]
  {
    assert Compressed(t, n);
  }

  /** What begin() promises: the first leaf of all. */
  ghost predicate IsStart(t: Tree, r: RadixNode) {
    Known(t) && IsFirst(t, LeavesUnder(t, t.root), r)
  }

  lemma StartsFirst(t: Tree, it: RadixNode)
    requires ValidTree(t) && IsStart(t, it)
    ensures Walking(t, [], it)
  {
    AllBelowRoot(t);
    forall m | m in Leaves(t)
      ensures !Less(t.path[m], t.path[it])
    {
      LessTrichotomy(t.path[m], t.path[it]);
    }
  }

  /** Of two leaves, one comes first. */
  lemma LaterLeaf(t: Tree, n: RadixNode, m: RadixNode)
    requires Shape(t) && Keyed(t) && n in Leaves(t) && m in Leaves(t)
    ensures m in Later(t, n) <==> Less(t.path[n], t.path[m])
    ensures m == n || Less(t.path[m], t.path[n]) || Less(t.path[n], t.path[m])
    ensures Less(t.path[m], t.path[n]) ==> m != n && !Less(t.path[n], t.path[m])
  {
    LessTrichotomy(t.path[n], t.path[m]);
    if Under(t, n, m) { UnderPath(t, n, m); }
  }

  /** A traversal under way: all before `it` has been passed, or everything has. */
  ghost predicate Walking(t: Tree, vec: seq<RadixNode>, it: RadixNode?) {
    Known(t) && if it == null then Lists(t, vec, Leaves(t)) else Passed(t, vec, it)
  }

  ghost function Remaining(t: Tree, it: RadixNode?): nat {
    if it == null || !Known(t) || it !in t.nodes then 0 else 1 + |Later(t, it)|
  }

  /** Moving to the next leaf adds exactly the one left behind. */
  lemma PassesOn(t: Tree, vec: seq<RadixNode>, it: RadixNode, next: RadixNode?)
    requires ValidTree(t) && Walking(t, vec, it) && IsNext(t, it, next)
    ensures Walking(t, vec + [it], next) && Remaining(t, next) < Remaining(t, it)
  {
    var all := vec + [it];
    forall m | m in Leaves(t)
      ensures m in all <==> next == null || Less(t.path[m], t.path[next])
    {
      LaterLeaf(t, it, m);
      if next != null {
        LaterLeaf(t, it, next);
        LaterLeaf(t, next, m);
        if Less(t.path[m], t.path[it]) { LessTransitive(t.path[m], t.path[it], t.path[next]); }
      }
    }
    assert Ascending(t, all) by {
      assert forall i | 0 <= i < |vec| :: all[i] == vec[i] && vec[i] in vec;
    }
    if next != null { FewerRemain(t, it, next); }
  }

  lemma FewerRemain(t: Tree, it: RadixNode, next: RadixNode)
    requires Shape(t) && Keyed(t) && it in Leaves(t) && next in Later(t, it)
    ensures Remaining(t, next) < Remaining(t, it)
  {
    LessTrichotomy(t.path[next], t.path[next]);
    assert next !in Later(t, next);
    forall m | m in Later(t, next)
      ensures m in Later(t, it)
    {
      LaterLeaf(t, it, m);
      LaterLeaf(t, it, next);
      LaterLeaf(t, next, m);
      LessTransitive(t.path[it], t.path[next], t.path[m]);
    }
    Fewer(Later(t, next), Later(t, it));
  }

  lemma Fewer(s: set<RadixNode>, all: set<RadixNode>)
    requires s < all
    ensures |s| < |all|
  {
    assert all == s + (all - s);
  }

  /** An ascending list has as many entries as keys. */
  lemma {:induction false} AscendingCounts(t: Tree, s: seq<RadixNode>)
    requires Known(t) && (forall n | n in s :: n in t.nodes) && Ascending(t, s)
    ensures |PathsOf(t, s)| == |s|
  {
    if s != [] {
      var last := |s| - 1;
      var front := s[..last];
      AscendingCounts(t, front);
      assert s == front + [s[last]];
      assert PathsOf(t, s) == PathsOf(t, front) + {t.path[s[last]]};
      if t.path[s[last]] in PathsOf(t, front) {
        var i :| 0 <= i < last && t.path[front[i]] == t.path[s[last]];
        LessTrichotomy(t.path[s[i]], t.path[s[last]]);
        assert false;
      }
    }
  }

  /** A list of all the leaves spells all the keys. */
  lemma SpellsAll(t: Tree, s: seq<RadixNode>)
    requires ValidTree(t) && Walking(t, s, null)
    ensures forall n | n in s :: n in Leaves(t)
    ensures PathsOf(t, s) == Contents(t).Keys && |s| == |Contents(t)| && Ascending(t, s)
  {
    forall k | k in t.leafOf
      ensures k in PathsOf(t, s)
    {
      assert t.leafOf[k] in s && t.path[t.leafOf[k]] == k;
    }
    assert PathsOf(t, s) == t.leafOf.Keys;
    AscendingCounts(t, s);
    assert |Contents(t).Keys| == |Contents(t)| && Contents(t).Keys == t.leafOf.Keys;
  }

  // ---- Where a new key goes ----

  /** Where the search stopped there is room for the rest of the key. */
  lemma CanAppend(t: Tree, key: string, p: RadixNode)
    requires ValidTree(t) && Stops(t, key, p) && key !in Contents(t)
    ensures Known(t) && p in t.nodes && t.nodes[p].depth + |t.nodes[p].key| == |t.path[p]| <= |key|
    ensures Free(t, p, key[|t.path[p]|..]) && t.path[p] + key[|t.path[p]|..] == key
    ensures p == t.root || t.nodes[p].children != map[]
  {
    assert Hangs(t, p) && Compressed(t, p);
    var d := |t.path[p]|;
    if d == |key| {
      assert LeadsOn(key, d, "");
    } else {
      assert key[d..][0] == key[d];
      assert forall k | k in t.nodes[p].children && k != "" && k[0] == key[d] :: LeadsOn(key, d, k);
    }
  }

  /** What inserting has to achieve: one more key, and the rest as before. */
  ghost predicate Gained(t: Tree, u: Tree, key: string, value: int) {
    ValidTree(u) && Contents(u) == Contents(t)[key := value]
  }

  ghost predicate IsLeafOf(u: Tree, leaf: RadixNode, key: string, value: int) {
    leaf in u.nodes && u.nodes[leaf].isLeaf && u.nodes[leaf].value == Value(key, value)
  }

  lemma EndedGains(t: Tree, p: RadixNode, leaf: RadixNode, key: string, value: int)
    requires ValidBut(t, p) && key !in Contents(t) && CanAttach(t, p, leaf, Value(key, value), "")
    ensures var u := Attach(t, p, leaf, Value(key, value), "");
      Gained(t, u, key, value) && IsLeafOf(u, leaf, key, value) && forall n | n in u.nodes && n !in t.nodes :: n == leaf
  {
    AttachLeaf(t, p, leaf, Value(key, value));
  }

  /** After a branch is hung, its path is the key. */
  lemma AttachedBranch(t: Tree, p: RadixNode, branch: RadixNode, held: Value, rest: string, key: string)
    requires Known(t) && p in t.nodes && branch !in t.nodes && t.path[p] + rest == key
    ensures var u := Attach(t, p, branch, held, rest);
      Known(u) && branch in u.nodes && u.path[branch] == key && u.nodes.Keys == t.nodes.Keys + {branch}
  {
  }

  lemma BranchedGains(t: Tree, p: RadixNode, branch: RadixNode, held: Value, leaf: RadixNode, rest: string, key: string,
                      value: int)
    requires ValidBut(t, p) && key !in Contents(t) && CanAttach(t, p, branch, held, rest)
    requires rest != "" && t.path[p] + rest == key && (p == t.root || t.nodes[p].children != map[])
    requires leaf !in t.nodes && leaf != branch
    ensures Attach(t, p, branch, held, rest).nodes.Keys == t.nodes.Keys + {branch}
    ensures branch in Attach(t, p, branch, held, rest).path
    ensures var u := Attach(Attach(t, p, branch, held, rest), branch, leaf, Value(key, value), "");
      Gained(t, u, key, value) && IsLeafOf(u, leaf, key,
             value) && forall n | n in u.nodes && n !in t.nodes :: n == branch || n == leaf
  {
    AttachBranch(t, p, branch, held, rest);
    EndedGains(Attach(t, p, branch, held, rest), branch, leaf, key, value);
  }

  lemma AppendsLeaf(t: Tree, key: string, p: RadixNode, leaf: RadixNode, value: int)
    requires ValidTree(t) && Stops(t, key, p) && key !in Contents(t) && |t.path[p]| == |key| && leaf !in t.nodes
    ensures var u := Attach(t, p, leaf, Value(key, value), "");
      Gained(t, u, key, value) && IsLeafOf(u, leaf, key, value) && forall n | n in u.nodes && n !in t.nodes :: n == leaf
  {
    CanAppend(t, key, p);
    EndedGains(t, p, leaf, key, value);
  }

  lemma AppendsBranch(t: Tree, key: string, p: RadixNode, branch: RadixNode, leaf: RadixNode, rest: string, value: int)
    requires ValidTree(t) && Stops(t, key, p) && key !in Contents(t) && |t.path[p]| < |key|
    requires rest == key[|t.path[p]|..] && branch !in t.nodes && leaf !in t.nodes && leaf != branch
    ensures Attach(t, p, branch, Value(key, value), rest).nodes.Keys == t.nodes.Keys + {branch}
    ensures branch in Attach(t, p, branch, Value(key, value), rest).path
    ensures var u := Attach(Attach(t, p, branch, Value(key, value), rest), branch, leaf, Value(key, value), "");
      Gained(t, u, key, value) && IsLeafOf(u, leaf, key,
             value) && forall n | n in u.nodes && n !in t.nodes :: n == branch || n == leaf
  {
    CanAppend(t, key, p);
    BranchedGains(t, p, branch, Value(key, value), leaf, rest, key, value);
  }

  /** The first `count` letters of n's label are the next letters of the key, and there they part. */
  ghost predicate Parts(t: Tree, key: string, n: RadixNode, count: nat) {
    && Splits(t, key, n) && t.nodes[n].depth + count <= |key| && 0 < count < |t.nodes[n].key|
    && t.nodes[n].key[..count] == key[t.nodes[n].depth..t.nodes[n].depth + count]
    && (t.nodes[n].depth + count < |key| ==> t.nodes[n].key[count] != key[t.nodes[n].depth + count])
  }

  lemma SplitSite(t: Tree, key: string, n: RadixNode)
    requires ValidTree(t) && Splits(t, key, n)
    ensures Known(t) && n in t.nodes && n != t.root && t.nodes[n].parent in t.nodes && t.nodes[n].parent != n
    ensures t.nodes[n].depth < |key| && t.path[t.nodes[n].parent] == key[..t.nodes[n].depth]
  {
    assert Hangs(t, n);
    ParentRank(t, n);
    assert Hangs(t, t.nodes[n].parent);
  }

  /** Where the common part ends is inside the label. */
  lemma FindsParting(t: Tree, key: string, n: RadixNode, count: nat)
    requires ValidTree(t) && Splits(t, key, n) && t.nodes[n].depth + count <= |key| && count <= |t.nodes[n].key|
    requires forall i | 0 <= i < count :: t.nodes[n].key[i] == key[t.nodes[n].depth + i]
    requires var d := t.nodes[n]; count == |d.key| || d.depth + count == |key| || d.key[count] != key[d.depth + count]
    ensures Parts(t, key, n, count)
  {
    assert Hangs(t, n);
    assert Hangs(t, t.nodes[n].parent);
    var d := t.nodes[n].depth;
    assert t.nodes[n].key[..count] == key[d..d + count];
    if count == |t.nodes[n].key| {
      assert Substr(key, d, count) == t.nodes[n].key;
      PrefixStep(t.path[t.nodes[n].parent], t.nodes[n].key, key);
      assert false;
    }
  }

  /** After the cut, the head spells the common part and holds only the rest of the label. */
  lemma PrependCut(t: Tree, key: string, n: RadixNode, a: RadixNode, count: nat)
    requires ValidTree(t) && Parts(t, key, n, count) && a !in t.nodes
    ensures Hangs(t, n) && ValidBut(Split(t, n, a, count), a) && Contents(Split(t, n, a, count)) == Contents(t)
    ensures var u := Split(t, n, a, count); var d := t.nodes[n].depth + count;
      && Known(u) && u.nodes.Keys == t.nodes.Keys + {a} && u.path[a] == key[..d] && !u.nodes[a].isLeaf
      && u.nodes[a].depth + count == d
      && u.nodes[n].depth == d && Free(u, a, key[d..]) && u.nodes[a].children != map[]
      && key[..d] + key[d..] == key
  {
    hide ValidBut, Split, Contents;
    SplitSite(t, key, n);
    SplitKeeps(t, n, a, count);
    SplitView(t, n, a, count);
    var d := t.nodes[n].depth;
    assert key[..d + count] == key[..d] + key[d..d + count];
    assert t.nodes[n].key[count..][0] == t.nodes[n].key[count];
    if d + count < |key| { assert key[d + count..][0] == key[d + count]; }
    assert t.nodes[n].key[count..] in Split(t, n, a, count).nodes[a].children;
  }

  /** A branch for the rest of the key fits below p. */
  ghost predicate CanHang(t: Tree, p: RadixNode, depth: nat, rest: string, key: string) {
    Known(t) && p in t.nodes && depth == |t.path[p]| && rest != "" && t.path[p] + rest == key
  }

  /** u is t with the label of n cut by the head a where the key parts from it. */
  ghost predicate WasCut(t: Tree, u: Tree, key: string, n: RadixNode, a: RadixNode, count: nat) {
    && ValidTree(t) && key !in Contents(t) && Parts(t, key, n, count) && a !in t.nodes
    && t.nodes[n].parent in t.nodes && t.nodes[n].parent in t.path && u == Split(t, n, a, count)
  }

  /** What the rest of the insertion needs to know of the cut. */
  lemma CutDepths(t: Tree, u: Tree, key: string, n: RadixNode, a: RadixNode, count: nat)
    requires WasCut(t, u, key, n, a, count)
    ensures n in u.nodes && u.nodes[n].depth <= |key|
    ensures u.nodes[n].depth == |key| ==> Known(u) && a in u.nodes && u.nodes[a].depth + count == |u.path[a]|
    ensures u.nodes[n].depth < |key| ==> CanHang(u, a, u.nodes[n].depth, key[u.nodes[n].depth..], key)
  {
    PrependCut(t, key, n, a, count);
  }

  lemma PrependsLeaf(t: Tree, u: Tree, key: string, n: RadixNode, a: RadixNode, count: nat, leaf: RadixNode, value: int)
    requires WasCut(t, u, key, n, a, count) && leaf !in u.nodes
    requires n in u.nodes && u.nodes[n].depth == |key|
    ensures a in u.nodes && a in u.path
    ensures var v := Attach(u, a, leaf, Value(key, value), "");
      Gained(t, v, key, value) && IsLeafOf(v, leaf, key,
             value) && forall n | n in v.nodes && n !in t.nodes :: n == a || n == leaf
  {
    PrependCut(t, key, n, a, count);
    assert key[..|key|] == key;
    EndedGains(u, a, leaf, key, value);
  }

  lemma PrependsBranch(t: Tree, u: Tree, key: string, n: RadixNode, a: RadixNode, count: nat, branch: RadixNode,
                       leaf: RadixNode, rest: string, value: int)
    requires WasCut(t, u, key, n, a, count) && leaf !in u.nodes && branch !in u.nodes && leaf != branch
    requires n in u.nodes && u.nodes[n].depth < |key| && rest == key[u.nodes[n].depth..]
    ensures a in u.nodes && a in u.path
    ensures branch in Attach(u, a, branch, NoValue, rest).nodes && branch in Attach(u, a, branch, NoValue, rest).path
    ensures var v := Attach(Attach(u, a, branch, NoValue, rest), branch, leaf, Value(key, value), "");
      Gained(t, v, key, value) && IsLeafOf(v, leaf, key, value)
      && forall n | n in v.nodes && n !in t.nodes :: n == a || n == branch || n == leaf
  {
    PrependCut(t, key, n, a, count);
    BranchedGains(u, a, branch, NoValue, leaf, rest, key, value);
  }

  /** The tree with nothing but a root. */
  ghost function Seed(root: RadixNode): Tree {
    Tree(map[root := Node(map[], null, NoValue, 0, false, "")], root, map[root := ""], map[])
  }

  lemma SeedValid(root: RadixNode)
    ensures ValidTree(Seed(root)) && Contents(Seed(root)) == map[]
  {
    var t := Seed(root);
    forall n | n in t.nodes
      ensures Hangs(t, n) && Holds(t, n) && Compressed(t, n)
    {
      assert n == root;
    }
  }

  /** Which way an insertion goes: below the node if the search matched its label, else by cutting the label. */
  lemma InsertCase(t: Tree, key: string, n: RadixNode)
    requires ValidTree(t) && Located(t, key, n) && n in t.nodes && !t.nodes[n].isLeaf
    ensures key !in Contents(t) && t.nodes[n].depth <= |key| && (n == t.root ==> Stops(t, key, n))
    ensures if Substr(key, t.nodes[n].depth, |t.nodes[n].key|) ==
            t.nodes[n].key then Stops(t, key, n) else Splits(t, key, n)
  {
    LocatedDecides(t, key, n);
    WholeLabel(t, key, n);
    assert Hangs(t, n);
    if n != t.root { ParentRank(t, n); }
  }

  lemma GainedOne(t: Tree, u: Tree, key: string, value: int)
    requires Gained(t, u, key, value) && key !in Contents(t)
    ensures ValidTree(u) && Contents(u) == Contents(t)[key := value] && |Contents(u)| == |Contents(t)| + 1
  {
  }

  // ---- What erasing leaves ----

  /** An erasure under way: only the compression of `but` is in doubt. */
  ghost predicate Erasing(u: Tree, but: RadixNode, rest: map<string, int>) {
    ValidBut(u, but) && but in u.nodes && !u.nodes[but].isLeaf && Contents(u) == rest
  }

  ghost predicate Erased(u: Tree, rest: map<string, int>) {
    ValidTree(u) && Contents(u) == rest
  }

  lemma EraseSettles(u: Tree, p: RadixNode, rest: map<string, int>)
    requires Erasing(u, p, rest)
    requires p == u.root || |u.nodes[p].children| >= 2 || "" in u.nodes[p].children
    ensures Erased(u, rest)
  {
    forall n | n in u.nodes
      ensures Compressed(u, n)
    {
    }
  }

  /** The leaf goes; its parent may be left with too few children. */
  lemma EraseLeaf(t: Tree, key: string, n: RadixNode)
    requires ValidTree(t) && Located(t, key, n) && n in t.nodes && t.nodes[n].isLeaf
    ensures Known(t) && Removable(t, n) && t.nodes[n].key == ""
    ensures Erasing(Detach(t, n), t.nodes[n].parent, Contents(t) - {key}) && Detach(t, n).nodes.Keys <= t.nodes.Keys
  {
    assert Hangs(t, n) && Holds(t, n);
    ParentRank(t, n);
    DetachKeeps(t, n, null);
  }

  ghost predicate Removable(t: Tree, n: RadixNode) {
    && n in t.nodes && n in t.path && t.nodes[n].parent in t.nodes && t.nodes[n].parent != n
    && t.nodes[n].children == map[]
  }

  /** An inner node without children goes too; its parent keeps at least one child. */
  lemma EraseBranch(t: Tree, n: RadixNode, rest: map<string, int>)
    requires Erasing(t, n, rest) && n != t.root && t.nodes[n].children == map[]
    ensures Removable(t, n) && Erasing(Detach(t, n), t.nodes[n].parent, rest) && Detach(t, n).nodes.Keys <= t.nodes.Keys
    ensures var p := t.nodes[n].parent; p != t.root ==> Detach(t, n).nodes[p].children != map[]
  {
    assert Hangs(t, n);
    ParentRank(t, n);
    DetachKeeps(t, n, n);
    var p := t.nodes[n].parent;
    if p != t.root {
      assert Compressed(t, p);
      var was := t.nodes[p].children;
      if "" in was {
        assert "" in was - {t.nodes[n].key};
      } else {
        assert |was| == |was.Keys| && was.Keys - {t.nodes[n].key} == (was - {t.nodes[n].key}).Keys;
        assert |was.Keys - {t.nodes[n].key}| >= 1;
      }
    }
  }

  lemma EraseChild(t: Tree, g: RadixNode, k: string, rest: map<string, int>)
    requires Erasing(t, g, rest) && k in t.nodes[g].children
    ensures t.nodes[g].children[k] in t.nodes && (t.nodes[t.nodes[g].children[k]].isLeaf <==> k == "")
    ensures g != t.root ==> t.nodes[g].parent in t.nodes
  {
    var c := ChildUnder(t, g, k);
    assert Hangs(t, g);
  }

  /** A node left with one child that is no leaf is merged with it. */
  lemma EraseMerges(t: Tree, g: RadixNode, k: string, c: RadixNode, rest: map<string, int>)
    requires Erasing(t, g, rest) && g != t.root && |t.nodes[g].children| == 1
    requires k in t.nodes[g].children && t.nodes[g].children[k] == c && c in t.nodes && !t.nodes[c].isLeaf
    ensures CanMergeAt(t, g, c) && Erased(Merge(t, g, c), rest) && Merge(t, g, c).nodes.Keys <= t.nodes.Keys
  {
    var children := t.nodes[g].children;
    assert Holds(t, g) && Linked(t, g, k);
    assert |children.Keys| == |children|;
    assert children.Keys == {k} by {
      assert |children.Keys - {k}| == 0;
    }
    assert children == map[k := c];
    ParentRank(t, g);
    MergeSite(t, g, c);
    MergeKeeps(t, g, c);
  }

  ghost predicate CanMergeAt(t: Tree, g: RadixNode, c: RadixNode) {
    && Known(t) && CanMerge(t, g, c)
    && t.nodes[g].parent != g && t.nodes[g].parent != c && c != g
  }
}
