/**
 * buildTree of frontend/app/utils/graphLayout.ts:57-92, as a pre-order arena.
 *
 * buildTree only allocates fresh TreeNodes and links them, so the tree it
 * returns is a value: node `v` is entry `v` of a sequence of TreeNode
 * records, and children are indices. Nodes are numbered in the order
 * buildTree creates them, so the subtree of `v` is the index interval
 * [v, end). A segment `t` of the arena starting at index `o` holds node `x`
 * at `t[x - o]`.
 */
module Arena {
  import opened Graph

  /** A null TreeNode reference. */
  const Null: int := -1

  /**
   * One TreeNode (graphLayout.ts:68-79): `kids` are the indices of its
   * `children`, `number` is its position among its parent's child ids and
   * `parent` the node whose children list holds it. `depth` and `end` record
   * where it sits: its depth below the layout root, and one past the last
   * index of its subtree.
   */
  datatype TreeNode = TreeNode(id: string, kids: seq<int>, number: int, parent: int, depth: int, end: int)

  function Ids(t: seq<TreeNode>): (r: seq<string>)
    ensures |r| == |t| && forall k :: 0 <= k < |t| ==> r[k] == t[k].id
  {
    seq(|t|, k requires 0 <= k < |t| => t[k].id)
  }

  lemma {:induction false} IdsConcat(a: seq<TreeNode>, b: seq<TreeNode>)
    ensures Ids(a + b) == Ids(a) + Ids(b)
  {
  }

  // ---------------------------------------------------------------------------
  // Which child ids become TreeNodes

  /** The positions `j >= i` of `children` whose id names an existing node, in order. */
  function PresentFrom(nodes: NodeMap, children: seq<string>, i: nat): (r: seq<nat>)
    requires i <= |children|
    ensures forall k :: 0 <= k < |r| ==> i <= r[k] < |children| && children[r[k]] in nodes
    ensures forall k, l :: 0 <= k < l < |r| ==> r[k] < r[l]
    decreases |children| - i
  {
    if i == |children| then []
    else (if children[i] in nodes then [i] else []) + PresentFrom(nodes, children, i + 1)
  }

  /** The positions in `children` that buildTree turns into TreeNodes; each keeps its position as `number`. */
  function PresentIndices(nodes: NodeMap, children: seq<string>): seq<nat> {
    PresentFrom(nodes, children, 0)
  }

  /** Every present position from `i` on is listed: the other half of PresentFrom's contract. */
  lemma {:induction false} PresentFromComplete(nodes: NodeMap, children: seq<string>, i: nat, j: nat)
    requires i <= j < |children| && children[j] in nodes
    ensures j in PresentFrom(nodes, children, i)
    decreases |children| - i
  {
    if i < j {
      PresentFromComplete(nodes, children, i + 1, j);
    }
  }

  // ---------------------------------------------------------------------------
  // buildTree

  /**
   * buildTree(nodeId, nodes, childNumber) (graphLayout.ts:57-92) with its
   * node placed at index `start`: nothing when the id names no node,
   * otherwise the node followed by the subtrees of its existing children.
   */
  function BuildTree(nodes: NodeMap, nodeId: string, childNumber: int, parent: int, depth: int, start: int)
    : seq<TreeNode>
    requires LayoutShaped(nodes)
    decreases Rank(nodes, nodeId), 1
  {
    if nodeId !in nodes then []
    else
      var built := BuildChildren(nodes, nodeId, 0, start, depth + 1, start + 1);
      [TreeNode(nodeId, built.0, childNumber, parent, depth, start + 1 + |built.1|)] + built.1
  }

  /**
   * The forEach of graphLayout.ts:84-89 from child position `i` on: the
   * indices of the children kept, and their subtrees, placed from `next`.
   */
  function BuildChildren(nodes: NodeMap, id: string, i: nat, self: int, depth: int, next: int)
    : (seq<int>, seq<TreeNode>)
    requires LayoutShaped(nodes) && id in nodes && i <= |nodes[id].children|
    decreases Rank(nodes, id), 0, |nodes[id].children| - i
  {
    var children := nodes[id].children;
    if i == |children| then ([], [])
    else
      ChildRank(nodes, id, children[i]);
      var sub := BuildTree(nodes, children[i], i, self, depth, next);
      var rest := BuildChildren(nodes, id, i + 1, self, depth, next + |sub|);
      if sub == [] then rest else ([next] + rest.0, sub + rest.1)
  }

  /** buildTree visits exactly the ids of Subtree, in the same pre-order. */
  lemma {:induction false} BuildIds(nodes: NodeMap, nodeId: string, childNumber: int, parent: int, depth: int,
                                    start: int)
    requires LayoutShaped(nodes)
    ensures Ids(BuildTree(nodes, nodeId, childNumber, parent, depth, start)) == Subtree(nodes, nodeId)
    decreases Rank(nodes, nodeId), 1
  {
    if nodeId in nodes {
      var built := BuildChildren(nodes, nodeId, 0, start, depth + 1, start + 1);
      BuildChildrenIds(nodes, nodeId, 0, start, depth + 1, start + 1);
      IdsConcat([TreeNode(nodeId, built.0, childNumber, parent, depth, start + 1 + |built.1|)], built.1);
    }
  }

  lemma {:induction false} BuildChildrenIds(nodes: NodeMap, id: string, i: nat, self: int, depth: int, next: int)
    requires LayoutShaped(nodes) && id in nodes && i <= |nodes[id].children|
    ensures Ids(BuildChildren(nodes, id, i, self, depth, next).1) == SubtreeFrom(nodes, id, i)
    decreases Rank(nodes, id), 0, |nodes[id].children| - i
  {
    var children := nodes[id].children;
    if i < |children| {
      ChildRank(nodes, id, children[i]);
      var sub := BuildTree(nodes, children[i], i, self, depth, next);
      var rest := BuildChildren(nodes, id, i + 1, self, depth, next + |sub|);
      assert BuildChildren(nodes, id, i, self, depth, next).1 == sub + rest.1 by {
        BuildChildrenStep(nodes, id, i, self, depth, next);
      }
      assert SubtreeFrom(nodes, id, i) == Subtree(nodes, children[i]) + SubtreeFrom(nodes, id, i + 1);
      assert Ids(sub) == Subtree(nodes, children[i]) by {
        BuildIds(nodes, children[i], i, self, depth, next);
      }
      assert Ids(rest.1) == SubtreeFrom(nodes, id, i + 1) by {
        BuildChildrenIds(nodes, id, i + 1, self, depth, next + |sub|);
      }
      IdsConcat(sub, rest.1);
    }
  }

  /** One child of the forEach: its subtree, if it has one, in front of the later children's. */
  lemma {:induction false} BuildChildrenStep(nodes: NodeMap, id: string, i: nat, self: int, depth: int, next: int)
    requires LayoutShaped(nodes) && id in nodes && i < |nodes[id].children|
    ensures var sub := BuildTree(nodes, nodes[id].children[i], i, self, depth, next);
            var rest := BuildChildren(nodes, id, i + 1, self, depth, next + |sub|);
            && BuildChildren(nodes, id, i, self, depth, next).1 == sub + rest.1
            && BuildChildren(nodes, id, i, self, depth, next).0 == (if sub == [] then rest.0 else [next] + rest.0)
  {
    var sub := BuildTree(nodes, nodes[id].children[i], i, self, depth, next);
    if sub == [] {
      assert sub + BuildChildren(nodes, id, i + 1, self, depth, next + |sub|).1
          == BuildChildren(nodes, id, i + 1, self, depth, next + |sub|).1;
    }
  }

  /** Two maps with the same ids and the same children lists: what buildTree reads. */
  ghost predicate SameTopology(a: NodeMap, b: NodeMap) {
    a.Keys == b.Keys && forall k :: k in a ==> a[k].children == b[k].children
  }

  /** buildTree reads nothing but ids and children lists, so the layout depends on nothing else. */
  lemma {:induction false} BuildSameTopology(a: NodeMap, b: NodeMap, nodeId: string, childNumber: int, parent: int,
                                             depth: int, start: int)
    requires LayoutShaped(a) && LayoutShaped(b) && SameTopology(a, b)
    ensures BuildTree(a, nodeId, childNumber, parent, depth, start) == BuildTree(b, nodeId, childNumber, parent, depth, start)
    decreases Rank(a, nodeId), 1
  {
    if nodeId in a {
      BuildChildrenSameTopology(a, b, nodeId, 0, start, depth + 1, start + 1);
      BuildTreeNode(a, nodeId, childNumber, parent, depth, start);
      BuildTreeNode(b, nodeId, childNumber, parent, depth, start);
    }
  }

  lemma {:induction false} BuildChildrenSameTopology(a: NodeMap, b: NodeMap, id: string, i: nat, self: int, depth: int,
                                                     next: int)
    requires LayoutShaped(a) && LayoutShaped(b) && SameTopology(a, b) && id in a && i <= |a[id].children|
    ensures id in b && i <= |b[id].children|
    ensures BuildChildren(a, id, i, self, depth, next).0 == BuildChildren(b, id, i, self, depth, next).0
    ensures BuildChildren(a, id, i, self, depth, next).1 == BuildChildren(b, id, i, self, depth, next).1
    decreases Rank(a, id), 0, |a[id].children| - i
  {
    var children := a[id].children;
    assert b[id].children == children;
    if i < |children| {
      ChildRank(a, id, children[i]);
      var sub := BuildTree(a, children[i], i, self, depth, next);
      BuildSameTopology(a, b, children[i], i, self, depth, next);
      BuildChildrenSameTopology(a, b, id, i + 1, self, depth, next + |sub|);
      SameTopologyStep(a, b, id, i, self, depth, next);
    }
  }

  /** The forEach step on two maps of the same topology: equal first subtrees and equal rests give equal runs. */
  lemma {:induction false} SameTopologyStep(a: NodeMap, b: NodeMap, id: string, i: nat, self: int, depth: int, next: int)
    requires LayoutShaped(a) && LayoutShaped(b) && SameTopology(a, b) && id in a && i < |a[id].children|
    requires var c := a[id].children[i];
             BuildTree(a, c, i, self, depth, next) == BuildTree(b, c, i, self, depth, next)
    requires var m := next + |BuildTree(a, a[id].children[i], i, self, depth, next)|;
             && BuildChildren(a, id, i + 1, self, depth, m).0 == BuildChildren(b, id, i + 1, self, depth, m).0
             && BuildChildren(a, id, i + 1, self, depth, m).1 == BuildChildren(b, id, i + 1, self, depth, m).1
    ensures BuildChildren(a, id, i, self, depth, next).0 == BuildChildren(b, id, i, self, depth, next).0
    ensures BuildChildren(a, id, i, self, depth, next).1 == BuildChildren(b, id, i, self, depth, next).1
  {
    assert b[id].children == a[id].children;
    BuildChildrenStep(a, id, i, self, depth, next);
    BuildChildrenStep(b, id, i, self, depth, next);
  }

  // ---------------------------------------------------------------------------
  // Arena shape

  /** Node `x` of the segment `t` that starts at index `o`. */
  function At(t: seq<TreeNode>, o: int, x: int): TreeNode
    requires o <= x < o + |t|
  {
    t[x - o]
  }

  /**
   * The children of `v` tile [v + 1, end) left to right, one level down,
   * with increasing `number`.
   */
  ghost predicate NodeOK(t: seq<TreeNode>, o: int, v: int) {
    && o <= v < o + |t|
    && var n := At(t, o, v);
    && v < n.end <= o + |t|
    && (n.kids == [] <==> n.end == v + 1)
    && (forall k :: 0 <= k < |n.kids| ==>
          v < n.kids[k] < n.end && At(t, o, n.kids[k]).parent == v &&
          At(t, o, n.kids[k]).depth == n.depth + 1 && 0 <= At(t, o, n.kids[k]).number)
    && (n.kids != [] ==> n.kids[0] == v + 1 && At(t, o, n.kids[|n.kids| - 1]).end == n.end)
    && (forall k :: 0 <= k < |n.kids| - 1 ==>
          n.kids[k + 1] == At(t, o, n.kids[k]).end && At(t, o, n.kids[k]).number < At(t, o, n.kids[k + 1]).number)
  }

  /** Every node inside the subtree of `v` is deeper than `v` and has its subtree inside that of `v`. */
  ghost predicate Nested(t: seq<TreeNode>, o: int, v: int) {
    && o <= v < o + |t| && v < At(t, o, v).end <= o + |t|
    && forall w :: v < w < At(t, o, v).end ==>
         At(t, o, w).end <= At(t, o, v).end && At(t, o, v).depth < At(t, o, w).depth
  }

  /** Node `v` is well formed and nested, its subtree ends by `hi`, and its depth is between `d` and `v`. */
  ghost predicate NodeIn(t: seq<TreeNode>, o: int, hi: int, d: int, v: int) {
    NodeOK(t, o, v) && Nested(t, o, v) && At(t, o, v).end <= hi && d <= At(t, o, v).depth <= v
  }

  /** [lo, hi) is a run of finished subtrees at depth `d` or below. */
  ghost predicate SegOK(t: seq<TreeNode>, o: int, lo: int, hi: int, d: int) {
    && o <= lo <= hi <= o + |t|
    && (forall v :: lo <= v < hi ==> NodeIn(t, o, hi, d, v))
  }

  /** Every node of [lo, hi) hangs below `self`, or below an earlier node of the run. */
  ghost predicate ParentsIn(t: seq<TreeNode>, o: int, lo: int, hi: int, self: int)
    requires o <= lo <= hi <= o + |t|
  {
    forall v :: lo <= v < hi ==> At(t, o, v).parent == self || lo <= At(t, o, v).parent < v
  }

  /**
   * [lo, hi) is the run of subtrees of the siblings `ks`, children of
   * `self` at depth `d`, whose numbers are at least `low`.
   */
  ghost predicate RunOK(t: seq<TreeNode>, o: int, ks: seq<int>, lo: int, hi: int, self: int, d: int, low: int) {
    && SegOK(t, o, lo, hi, d) && ParentsIn(t, o, lo, hi, self)
    && (ks == [] <==> lo == hi)
    && (forall j :: 0 <= j < |ks| ==>
          lo <= ks[j] < hi && At(t, o, ks[j]).parent == self && At(t, o, ks[j]).depth == d &&
          low <= At(t, o, ks[j]).number)
    && (ks != [] ==> ks[0] == lo && At(t, o, ks[|ks| - 1]).end == hi)
    && (forall j :: 0 <= j < |ks| - 1 ==>
          ks[j + 1] == At(t, o, ks[j]).end && At(t, o, ks[j]).number < At(t, o, ks[j + 1]).number)
  }

  /** `t` is exactly one subtree, rooted at index `s` at depth `d`. */
  ghost predicate TreeOK(t: seq<TreeNode>, s: int, d: int) {
    && |t| > 0 && SegOK(t, s, s, s + |t|, d)
    && t[0].end == s + |t| && t[0].depth == d
    && ParentsIn(t, s, s + 1, s + |t|, s)
  }

  /** NodeOK(v) only looks at [v, end): it survives appending to the segment. */
  lemma {:induction false} NodeOKAppend(t: seq<TreeNode>, u: seq<TreeNode>, o: int, v: int)
    requires NodeOK(t, o, v)
    ensures NodeOK(t + u, o, v)
  {
    var n := At(t, o, v);
    assert At(t + u, o, v) == n;
    forall x | v <= x < n.end ensures At(t + u, o, x) == At(t, o, x) {
    }
  }

  /** ... and prepending to it. */
  lemma {:induction false} NodeOKPrepend(u: seq<TreeNode>, t: seq<TreeNode>, o: int, v: int)
    requires NodeOK(t, o, v)
    ensures NodeOK(u + t, o - |u|, v)
  {
    var n := At(t, o, v);
    assert At(u + t, o - |u|, v) == n;
    forall x | v <= x < n.end ensures At(u + t, o - |u|, x) == At(t, o, x) {
    }
  }

  lemma {:induction false} NestedAppend(t: seq<TreeNode>, u: seq<TreeNode>, o: int, v: int)
    requires Nested(t, o, v)
    ensures Nested(t + u, o, v)
  {
    forall x | v <= x < At(t, o, v).end ensures At(t + u, o, x) == At(t, o, x) {
    }
  }

  lemma {:induction false} NestedPrepend(u: seq<TreeNode>, t: seq<TreeNode>, o: int, v: int)
    requires Nested(t, o, v)
    ensures Nested(u + t, o - |u|, v)
  {
    var t', o' := u + t, o - |u|;
    forall x | v <= x < At(t, o, v).end ensures At(t', o', x) == At(t, o, x) {
    }
  }

  lemma {:induction false} SegOKAppend(t: seq<TreeNode>, u: seq<TreeNode>, o: int, lo: int, hi: int, d: int)
    requires SegOK(t, o, lo, hi, d)
    ensures SegOK(t + u, o, lo, hi, d)
  {
    forall v | lo <= v < hi ensures NodeIn(t + u, o, hi, d, v) {
      assert NodeIn(t, o, hi, d, v);
      NodeOKAppend(t, u, o, v);
      NestedAppend(t, u, o, v);
    }
  }

  lemma {:induction false} SegOKPrepend(u: seq<TreeNode>, t: seq<TreeNode>, o: int, lo: int, hi: int, d: int)
    requires SegOK(t, o, lo, hi, d)
    ensures SegOK(u + t, o - |u|, lo, hi, d)
  {
    var t', o' := u + t, o - |u|;
    forall v | lo <= v < hi ensures NodeIn(t', o', hi, d, v) {
      assert NodeIn(t, o, hi, d, v);
      NodeOKPrepend(u, t, o, v);
      NestedPrepend(u, t, o, v);
    }
  }

  /** Two adjacent runs make one. */
  lemma {:induction false} SegOKUnion(t: seq<TreeNode>, o: int, lo: int, m: int, hi: int, d: int)
    requires SegOK(t, o, lo, m, d) && SegOK(t, o, m, hi, d)
    ensures SegOK(t, o, lo, hi, d)
  {
    forall v | lo <= v < hi ensures NodeIn(t, o, hi, d, v) {
      if v < m {
        assert NodeIn(t, o, m, d, v);
      } else {
        assert NodeIn(t, o, hi, d, v);
      }
    }
  }

  /** A run at depth `d + 1` is also a run at depth `d`. */
  lemma {:induction false} SegOKLower(t: seq<TreeNode>, o: int, lo: int, hi: int, d: int)
    requires SegOK(t, o, lo, hi, d + 1)
    ensures SegOK(t, o, lo, hi, d)
  {
    forall v | lo <= v < hi ensures NodeIn(t, o, hi, d, v) {
      assert NodeIn(t, o, hi, d + 1, v);
    }
  }

  /** A run with numbers at least `low + 1` has numbers at least `low`. */
  lemma {:induction false} RunLower(t: seq<TreeNode>, o: int, ks: seq<int>, lo: int, hi: int, self: int, d: int, low: int)
    requires RunOK(t, o, ks, lo, hi, self, d, low + 1)
    ensures RunOK(t, o, ks, lo, hi, self, d, low)
  {
  }

  /** A finished subtree of `self` in front of a run of its later siblings. */
  lemma {:induction false} RunCons(sub: seq<TreeNode>, rest: seq<TreeNode>, next: int, ks: seq<int>, hi: int, self: int, d: int,
                i: int)
    requires TreeOK(sub, next, d) && sub[0].parent == self && sub[0].number == i && 0 <= i
    requires RunOK(rest, next + |sub|, ks, next + |sub|, hi, self, d, i + 1)
    ensures RunOK(sub + rest, next, [next] + ks, next, hi, self, d, i)
  {
    var t, m := sub + rest, next + |sub|;
    SegOKAppend(sub, rest, next, next, m, d);
    SegOKPrepend(sub, rest, m, m, hi, d);
    SegOKUnion(t, next, next, m, hi, d);
    forall x | next <= x < m ensures At(t, next, x) == At(sub, next, x) {
    }
    forall x | m <= x < hi ensures At(t, next, x) == At(rest, m, x) {
    }
    var ks' := [next] + ks;
    forall j | 0 <= j < |ks'| - 1
      ensures ks'[j + 1] == At(t, next, ks'[j]).end && At(t, next, ks'[j]).number < At(t, next, ks'[j + 1]).number
    {
      if j > 0 {
        assert ks'[j] == ks[j - 1] && ks'[j + 1] == ks[j];
      }
    }
  }

  /** A node in front of the run of its children's subtrees is one subtree. */
  lemma {:induction false} TreeFromRun(r: seq<TreeNode>, built: (seq<int>, seq<TreeNode>), s: int, id: string,
                    number: int, parent: int, d: int)
    requires 0 <= d <= s
    requires RunOK(built.1, s + 1, built.0, s + 1, s + 1 + |built.1|, s, d + 1, 0)
    requires r == [TreeNode(id, built.0, number, parent, d, s + 1 + |built.1|)] + built.1
    ensures TreeOK(r, s, d)
  {
    var below, first, e := built.1, s + 1, s + 1 + |built.1|;
    var root := TreeNode(id, built.0, number, parent, d, e);
    assert SegOK(r, s, first, e, d) by {
      SegOKPrepend([root], below, first, first, e, d + 1);
      SegOKLower(r, s, first, e, d);
    }
    RunRoot(r, built, s, id, number, parent, d);
    forall v | s <= v < e ensures NodeIn(r, s, e, d, v) {
      if v > s {
        assert NodeIn(r, s, e, d, v);
      }
    }
    assert ParentsIn(r, s, first, e, s) by {
      forall x | first <= x < e ensures At(r, s, x) == At(below, first, x) {
      }
    }
  }

  /** The node in front of the run of its children's subtrees is well formed and nests them. */
  lemma {:induction false} RunRoot(r: seq<TreeNode>, built: (seq<int>, seq<TreeNode>), s: int, id: string,
                                   number: int, parent: int, d: int)
    requires 0 <= d <= s
    requires RunOK(built.1, s + 1, built.0, s + 1, s + 1 + |built.1|, s, d + 1, 0)
    requires r == [TreeNode(id, built.0, number, parent, d, s + 1 + |built.1|)] + built.1
    ensures NodeIn(r, s, s + |r|, d, s)
  {
    var below, ks, first, e := built.1, built.0, s + 1, s + 1 + |built.1|;
    var root := TreeNode(id, ks, number, parent, d, e);
    SegOKPrepend([root], below, first, first, e, d + 1);
    forall x | first <= x < e ensures At(r, s, x) == At(below, first, x) {
    }
    assert At(r, s, s) == root;
    assert NodeOK(r, s, s);
    forall w | s < w < e ensures At(r, s, w).end <= e && d < At(r, s, w).depth {
      assert NodeIn(r, s, e, d + 1, w);
    }
    assert Nested(r, s, s);
  }

  /** One step of the forEach: the subtree of child `i`, if any, in front of the run of the later ones. */
  lemma {:induction false} ChildrenStep(sub: seq<TreeNode>, rest: (seq<int>, seq<TreeNode>), r: (seq<int>, seq<TreeNode>), next: int,
                     mid: int, self: int, depth: int, i: int)
    requires 0 <= i && mid == next + |sub|
    requires sub != [] ==> TreeOK(sub, next, depth) && sub[0].parent == self && sub[0].number == i
    requires RunOK(rest.1, mid, rest.0, mid, mid + |rest.1|, self, depth, i + 1)
    requires r == if sub == [] then rest else ([next] + rest.0, sub + rest.1)
    ensures RunOK(r.1, next, r.0, next, next + |r.1|, self, depth, i)
  {
    if sub == [] {
      RunLower(rest.1, next, rest.0, next, next + |rest.1|, self, depth, i);
    } else {
      RunCons(sub, rest.1, next, rest.0, next + |r.1|, self, depth, i);
    }
  }

  /** buildTree's result is one well-formed subtree rooted at `start`. */
  lemma {:induction false} BuildShape(nodes: NodeMap, nodeId: string, childNumber: int, parent: int, depth: int,
                                      start: int)
    requires LayoutShaped(nodes) && nodeId in nodes && 0 <= depth <= start && 0 <= childNumber
    ensures var r := BuildTree(nodes, nodeId, childNumber, parent, depth, start);
      TreeOK(r, start, depth) && r[0].id == nodeId && r[0].parent == parent && r[0].number == childNumber
    decreases Rank(nodes, nodeId), 1
  {
    var built := BuildChildren(nodes, nodeId, 0, start, depth + 1, start + 1);
    BuildChildrenShape(nodes, nodeId, 0, start, depth + 1, start + 1, built);
    BuildFromRun(nodes, nodeId, childNumber, parent, depth, start, built);
  }

  /** Once the children's subtrees form a run, the node in front of them makes one subtree. */
  lemma {:induction false} BuildFromRun(nodes: NodeMap, nodeId: string, childNumber: int, parent: int, depth: int,
                                        start: int, built: (seq<int>, seq<TreeNode>))
    requires LayoutShaped(nodes) && nodeId in nodes && 0 <= depth <= start
    requires built == BuildChildren(nodes, nodeId, 0, start, depth + 1, start + 1)
    requires RunOK(built.1, start + 1, built.0, start + 1, start + 1 + |built.1|, start, depth + 1, 0)
    ensures var r := BuildTree(nodes, nodeId, childNumber, parent, depth, start);
      TreeOK(r, start, depth) && r[0].id == nodeId && r[0].parent == parent && r[0].number == childNumber
  {
    var r := BuildTree(nodes, nodeId, childNumber, parent, depth, start);
    BuildTreeNode(nodes, nodeId, childNumber, parent, depth, start);
    TreeFromRun(r, built, start, nodeId, childNumber, parent, depth);
  }

  /** buildTree on an existing node: the node, then its children's subtrees. */
  lemma {:induction false} BuildTreeNode(nodes: NodeMap, nodeId: string, childNumber: int, parent: int, depth: int, start: int)
    requires LayoutShaped(nodes) && nodeId in nodes
    ensures var built := BuildChildren(nodes, nodeId, 0, start, depth + 1, start + 1);
      BuildTree(nodes, nodeId, childNumber, parent, depth, start)
        == [TreeNode(nodeId, built.0, childNumber, parent, depth, start + 1 + |built.1|)] + built.1
  {
  }

  /** The children's subtrees from position `i` on form one run. */
  lemma {:induction false} BuildChildrenShape(nodes: NodeMap, id: string, i: nat, self: int, depth: int, next: int,
                                              r: (seq<int>, seq<TreeNode>))
    requires LayoutShaped(nodes) && id in nodes && i <= |nodes[id].children|
    requires 0 <= depth <= next && r == BuildChildren(nodes, id, i, self, depth, next)
    ensures RunOK(r.1, next, r.0, next, next + |r.1|, self, depth, i)
    decreases Rank(nodes, id), 0, |nodes[id].children| - i
  {
    var children := nodes[id].children;
    if i < |children| {
      ChildRank(nodes, id, children[i]);
      var sub := BuildTree(nodes, children[i], i, self, depth, next);
      var mid := next + |sub|;
      var rest := BuildChildren(nodes, id, i + 1, self, depth, mid);
      BuildChildrenShape(nodes, id, i + 1, self, depth, mid, rest);
      if sub != [] {
        BuildShape(nodes, children[i], i, self, depth, next);
      }
      ChildrenStep(sub, rest, r, next, mid, self, depth, i);
    }
  }

  /**
   * The kids `r.0` and the segment `r.1`, which starts at index `next`,
   * hold one TreeNode per entry of `present`, in order: kid `k` is the
   * node of child id `children[present[k]]`, numbered `present[k]`.
   */
  ghost predicate KeepsPresent(r: (seq<int>, seq<TreeNode>), next: int, children: seq<string>, present: seq<nat>) {
    && |r.0| == |present|
    && forall k :: 0 <= k < |r.0| ==>
         && next <= r.0[k] < next + |r.1| && present[k] < |children|
         && r.1[r.0[k] - next].id == children[present[k]]
         && r.1[r.0[k] - next].number == present[k]
  }

  /** A kept child in front of the later ones. */
  lemma {:induction false} KeepsPresentCons(sub: seq<TreeNode>, rest: (seq<int>, seq<TreeNode>), next: int,
                                            children: seq<string>, i: nat, later: seq<nat>)
    requires sub != [] && i < |children| && sub[0].id == children[i] && sub[0].number == i
    requires KeepsPresent(rest, next + |sub|, children, later)
    ensures KeepsPresent(([next] + rest.0, sub + rest.1), next, children, [i] + later)
  {
    var r := ([next] + rest.0, sub + rest.1);
    forall k | 1 <= k < |r.0|
      ensures next <= r.0[k] < next + |r.1|
      ensures r.1[r.0[k] - next] == rest.1[rest.0[k - 1] - (next + |sub|)]
    {
      assert r.0[k] == rest.0[k - 1];
    }
  }

  /**
   * The forEach of graphLayout.ts:84-89 keeps one child per present
   * position from `i` on, in order, each numbered by its position.
   */
  lemma {:induction false} BuildChildrenPresent(nodes: NodeMap, id: string, i: nat, self: int, depth: int, next: int,
                                                r: (seq<int>, seq<TreeNode>))
    requires LayoutShaped(nodes) && id in nodes && i <= |nodes[id].children|
    requires r == BuildChildren(nodes, id, i, self, depth, next)
    ensures KeepsPresent(r, next, nodes[id].children, PresentFrom(nodes, nodes[id].children, i))
    decreases |nodes[id].children| - i
  {
    var children := nodes[id].children;
    if i < |children| {
      var sub := BuildTree(nodes, children[i], i, self, depth, next);
      var rest := BuildChildren(nodes, id, i + 1, self, depth, next + |sub|);
      BuildChildrenStep(nodes, id, i, self, depth, next);
      BuildChildrenPresent(nodes, id, i + 1, self, depth, next + |sub|, rest);
      var later := PresentFrom(nodes, children, i + 1);
      if children[i] in nodes {
        BuildTreeNode(nodes, children[i], i, self, depth, next);
        assert PresentFrom(nodes, children, i) == [i] + later;
        KeepsPresentCons(sub, rest, next, children, i, later);
      } else {
        assert sub == [] && PresentFrom(nodes, children, i) == later;
        assert r == rest;
      }
    }
  }

  /**
   * The children buildTree gives a node: its kids, found in the rest of the
   * tree it builds, are exactly its present child ids, in order, each
   * numbered by its position in the node's children list.
   */
  lemma {:induction false} BuildTreeKids(nodes: NodeMap, nodeId: string, childNumber: int, parent: int, depth: int,
                                         start: int)
    requires LayoutShaped(nodes) && nodeId in nodes
    ensures var t := BuildTree(nodes, nodeId, childNumber, parent, depth, start);
            && t != []
            && KeepsPresent((t[0].kids, t[1..]), start + 1, nodes[nodeId].children,
                            PresentIndices(nodes, nodes[nodeId].children))
  {
    var built := BuildChildren(nodes, nodeId, 0, start, depth + 1, start + 1);
    var t := BuildTree(nodes, nodeId, childNumber, parent, depth, start);
    BuildTreeNode(nodes, nodeId, childNumber, parent, depth, start);
    BuildChildrenPresent(nodes, nodeId, 0, start, depth + 1, start + 1, built);
    assert (t[0].kids, t[1..]) == built;
  }

  // ---------------------------------------------------------------------------
  // The whole arena, in the terms the layout uses

  /** Node `v` of a whole arena (the subtree rooted at index 0). */
  ghost predicate Placed(t: seq<TreeNode>, v: int)
    requires 0 <= v < |t|
  {
    && v < t[v].end <= |t| && 0 <= t[v].depth <= v && 0 <= t[v].number
    && (t[v].kids == [] <==> t[v].end == v + 1)
    && (forall k :: 0 <= k < |t[v].kids| ==>
          v < t[v].kids[k] < t[v].end && t[t[v].kids[k]].parent == v && t[t[v].kids[k]].depth == t[v].depth + 1)
    && (t[v].kids != [] ==> t[v].kids[0] == v + 1 && t[t[v].kids[|t[v].kids| - 1]].end == t[v].end)
    && (forall k :: 0 <= k < |t[v].kids| - 1 ==>
          t[v].kids[k + 1] == t[t[v].kids[k]].end && t[t[v].kids[k]].number < t[t[v].kids[k + 1]].number)
    && (forall w :: v < w < t[v].end ==> t[w].end <= t[v].end && t[v].depth < t[w].depth)
    && (v == 0 ==> t[v].parent == Null)
    && (v > 0 ==> 0 <= t[v].parent < v && v in t[t[v].parent].kids)
  }

  /** A whole arena: every node placed, the root at index 0 spanning everything. */
  ghost predicate WellFormed(t: seq<TreeNode>) {
    |t| > 0 && t[0].end == |t| && t[0].depth == 0 && forall v :: 0 <= v < |t| ==> Placed(t, v)
  }

  /** The child of `u` whose subtree holds `v`. */
  lemma {:induction false} FindKid(t: seq<TreeNode>, u: int, j: nat, v: int) returns (k: nat)
    requires 0 <= u < |t| && NodeOK(t, 0, u) && j < |t[u].kids| && t[u].kids[j] <= v < t[u].end
    ensures j <= k < |t[u].kids| && t[u].kids[k] <= v < t[t[u].kids[k]].end
    decreases |t[u].kids| - j
  {
    if v < t[t[u].kids[j]].end {
      k := j;
    } else {
      assert j + 1 < |t[u].kids|;
      k := FindKid(t, u, j + 1, v);
    }
  }

  /** Inside the subtree of `u`, every node is one of its parent's children. */
  lemma {:induction false} InKids(t: seq<TreeNode>, u: int, v: int)
    requires forall x :: 0 <= x < |t| ==> NodeOK(t, 0, x)
    requires v < |t| && 0 <= u < v < t[u].end
    ensures 0 <= t[v].parent < |t| && v in t[t[v].parent].kids
    decreases v - u
  {
    assert NodeOK(t, 0, u);
    var k := FindKid(t, u, 0, v);
    var c := t[u].kids[k];
    if c < v {
      assert NodeOK(t, 0, c);
      InKids(t, c, v);
    } else {
      assert t[c].parent == u;
    }
  }

  /** TreeOK of a whole arena, restated node by node. */
  lemma {:induction false} TreeWellFormed(t: seq<TreeNode>)
    requires TreeOK(t, 0, 0) && t[0].parent == Null && t[0].number == 0
    ensures WellFormed(t)
  {
    forall x | 0 <= x < |t| ensures NodeOK(t, 0, x) && Nested(t, 0, x) {
      assert NodeIn(t, 0, |t|, 0, x);
    }
    forall v | 0 <= v < |t| ensures Placed(t, v) {
      assert NodeIn(t, 0, |t|, 0, v);
      forall w | v < w < t[v].end ensures t[w].end <= t[v].end && t[v].depth < t[w].depth {
        assert At(t, 0, w) == t[w];
      }
      if v > 0 {
        assert At(t, 0, v) == t[v];
        InKids(t, 0, v);
        assert NodeOK(t, 0, t[v].parent);
      }
    }
  }

  /** The arena buildTree returns for the layout root. */
  lemma {:induction false} BuildWellFormed(nodes: NodeMap, rootId: string)
    requires LayoutShaped(nodes) && rootId in nodes
    ensures WellFormed(BuildTree(nodes, rootId, 0, Null, 0, 0))
  {
    BuildShape(nodes, rootId, 0, Null, 0, 0);
    TreeWellFormed(BuildTree(nodes, rootId, 0, Null, 0, 0));
  }

  /** Children are listed left to right: both their indices and their numbers increase. */
  lemma {:induction false} KidsOrdered(t: seq<TreeNode>, v: int, j: int, k: int)
    requires WellFormed(t) && 0 <= v < |t| && 0 <= j < k < |t[v].kids|
    ensures Placed(t, v) && t[v].kids[j] < t[v].kids[k] && t[t[v].kids[j]].number < t[t[v].kids[k]].number
    decreases k - j
  {
    assert Placed(t, v);
    assert Placed(t, t[v].kids[j]);
    if j + 1 < k {
      KidsOrdered(t, v, j + 1, k);
    }
  }

  /** Every node between `v` and its child `kids[i]` belongs to an earlier child's subtree. */
  lemma {:induction false} EarlierSubtrees(t: seq<TreeNode>, v: int, i: int, w: int)
    requires WellFormed(t) && 0 <= v < |t| && 0 <= i < |t[v].kids| && v < w < t[v].kids[i]
    ensures w < |t| && t[w].end <= t[v].kids[i]
    decreases i
  {
    assert Placed(t, v);
    if i > 0 {
      var c := t[v].kids[i - 1];
      assert Placed(t, c);
      if w < c {
        EarlierSubtrees(t, v, i - 1, w);
      }
    }
  }


  /** No child is listed twice. */
  lemma {:induction false} KidDistinct(t: seq<TreeNode>, v: int, i: int)
    requires WellFormed(t) && 0 <= v < |t| && 0 <= i < |t[v].kids|
    ensures forall k :: 0 <= k < |t[v].kids| && k != i ==> t[v].kids[k] != t[v].kids[i]
  {
    forall k | 0 <= k < |t[v].kids| && k != i
      ensures t[v].kids[k] != t[v].kids[i]
    {
      if k < i { KidsOrdered(t, v, k, i); } else { KidsOrdered(t, v, i, k); }
    }
  }

  /** Of two siblings, the one placed first has the smaller child number. */
  lemma {:induction false} SiblingsOrdered(t: seq<TreeNode>, a: int, b: int)
    requires WellFormed(t) && 0 < a < b < |t| && t[a].parent == t[b].parent
    ensures t[a].number < t[b].number
  {
    assert Placed(t, a);
    assert Placed(t, b);
    var p := t[a].parent;
    var ks := t[p].kids;
    var j :| 0 <= j < |ks| && ks[j] == a;
    var i :| 0 <= i < |ks| && ks[i] == b;
    if i < j {
      KidsOrdered(t, p, i, j);
    } else if j < i {
      KidsOrdered(t, p, j, i);
    }
  }

  /** Inside the subtree of `v`, the parent of every other node is inside it too. */
  lemma {:induction false} ParentInside(t: seq<TreeNode>, v: int, w: int)
    requires WellFormed(t) && 0 <= v < |t| && v < w < t[v].end
    ensures w < |t| && v <= t[w].parent < w
  {
    assert Placed(t, v);
    assert Placed(t, w);
    var p := t[w].parent;
    if p < v {
      var i :| 0 <= i < |t[p].kids| && t[p].kids[i] == w;
      EarlierSubtrees(t, p, i, v);
      assert false;
    }
  }

  /** The node right after the subtree of `a`, when it has the same parent, is the next child of that parent. */
  lemma {:induction false} NextSibling(t: seq<TreeNode>, a: int) returns (k: int)
    requires WellFormed(t) && 0 < a < |t| && a < t[a].end < |t| && t[t[a].end].parent == t[a].parent
    ensures 0 <= t[a].parent < a
    ensures var ks := t[t[a].parent].kids; 0 <= k < |ks| - 1 && ks[k] == a && ks[k + 1] == t[a].end
  {
    assert Placed(t, a);
    var p := t[a].parent;
    assert Placed(t, p);
    var b := t[a].end;
    assert Placed(t, b);
    k :| 0 <= k < |t[p].kids| && t[p].kids[k] == a;
    if k == |t[p].kids| - 1 {
      assert false;
    }
  }
}
