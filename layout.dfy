/**
 * The horizontal tree layout of frontend/app/utils/graphLayout.ts: a
 * Reingold-Tilford style first walk (prelim, mod, threads, apportion), a
 * second walk accumulating the modifiers, and the flattening into a map of
 * positions, x growing with depth and y spreading siblings apart.
 *
 * The TreeNode objects buildTree creates are the arena of module Arena:
 * node `v` lives at index `v`, its fields that the walks overwrite are the
 * per-index sequences of class LayoutTree, and a reference to a node
 * (thread, ancestor) is an index, Null standing for null/undefined.
 *
 * getParent (graphLayout.ts:289-293) reads the module-level parentMap,
 * which only flattenPositions fills, after both walks and with the objects
 * of that one call; during the walks every lookup misses. The class takes
 * a flag `recorded`: false is the code as written (every getParent is
 * null), true is a parent table filled while the tree is built.
 */
module Layout {
  import opened Wrappers
  import opened Graph
  import opened Arena
  import opened LayoutSums

  /** HORIZONTAL_SPACING: x distance between two levels. */
  const HorizontalSpacing: real := 300.0
  /** VERTICAL_SPACING: the y unit one prelim step is scaled by. */
  const VerticalSpacing: real := 150.0
  /** firstWalk's default `distance` between neighbouring subtrees. */
  const Distance: real := 1.0

  /** Array.prototype.indexOf: the first position of `x`, or -1. */
  function IndexOf(s: seq<int>, x: int): (r: int)
    ensures -1 <= r < |s|
    ensures r == -1 <==> x !in s
    ensures r >= 0 ==> s[r] == x && x !in s[..r]
  {
    if |s| == 0 then -1
    else if s[0] == x then 0
    else
      var r := IndexOf(s[1..], x);
      assert s[1..][..if r < 0 then 0 else r] == s[1..if r < 0 then 1 else r + 1];
      if r == -1 then -1 else r + 1
  }

  lemma {:induction false} MapUnionAssoc<K, V>(a: map<K, V>, b: map<K, V>, c: map<K, V>)
    ensures a + b + c == a + (b + c)
  {
  }

  /** Every node but the root is a leaf: a root with its children and nothing deeper. */
  ghost predicate Flat(t: seq<TreeNode>) {
    forall w :: 0 < w < |t| ==> t[w].kids == []
  }

  /** No node has a thread. */
  ghost predicate Unthreaded(thread: seq<int>) {
    forall w :: 0 <= w < |thread| ==> thread[w] == Null
  }

  class LayoutTree {
    /** The nodes buildTree created, in pre-order; their shape never changes. */
    const tree: seq<TreeNode>
    /** Whether getParent finds the parent of a node (see the module comment). */
    const recorded: bool

    var prelim: seq<real>
    var mod: seq<real>
    var change: seq<real>
    var shift: seq<real>
    var y: seq<real>
    var thread: seq<int>
    var ancestor: seq<int>
    /** The `positions` map flattenPositions fills. */
    var positions: map<string, Position>

    /** Every field has one entry per node; threads point one level down, ancestors at or before their node. */
    ghost predicate Valid()
      reads this
    {
      && WellFormed(tree)
      && |prelim| == |tree| && |mod| == |tree| && |change| == |tree| && |shift| == |tree|
      && |y| == |tree| && |thread| == |tree| && |ancestor| == |tree|
      && (forall w :: 0 <= w < |tree| ==>
            thread[w] == Null || (0 <= thread[w] < |tree| && tree[thread[w]].depth == tree[w].depth + 1))
      && (forall w :: 0 <= w < |tree| ==> 0 <= ancestor[w] <= w)
    }

    /** The nodes in [lo, hi) are as buildTree left them: all numbers 0, no thread. */
    ghost predicate Fresh(lo: int, hi: int)
      requires Valid()
      reads this
    {
      forall w :: lo <= w < hi && 0 <= w < |tree| ==>
        prelim[w] == 0.0 && mod[w] == 0.0 && change[w] == 0.0 && shift[w] == 0.0 && thread[w] == Null
    }

    /** Every thread set in [lo, hi) points into [lo, hi). */
    ghost predicate ThreadsInside(lo: int, hi: int)
      requires Valid()
      reads this
    {
      forall w :: lo <= w < hi && 0 <= w < |tree| ==> thread[w] == Null || lo <= thread[w] < hi
    }

    /** In the positions `p`, consecutive children of `w` are at least `Distance` apart. */
    ghost predicate Spread(p: seq<real>, w: int)
      requires WellFormed(tree) && |p| == |tree| && 0 <= w < |tree|
    {
      var ks := Kids(w);
      forall k :: 0 <= k < |ks| - 1 ==> p[ks[k + 1]] - p[ks[k]] >= Distance
    }

    /** Every node in [lo, hi) has its children spread in `p`. */
    ghost predicate SpreadIn(p: seq<real>, lo: int, hi: int)
      requires WellFormed(tree) && |p| == |tree|
    {
      forall w :: lo <= w < hi && 0 <= w < |tree| ==> Spread(p, w)
    }

    /** buildTree's initial fields (graphLayout.ts:68-81), each node its own ancestor. */
    constructor (t: seq<TreeNode>, recorded: bool)
      requires WellFormed(t)
      ensures tree == t && this.recorded == recorded && Valid() && Fresh(0, |t|)
      ensures forall w :: 0 <= w < |t| ==> y[w] == 0.0 && ancestor[w] == w
      ensures positions == map[]
    {
      tree := t;
      this.recorded := recorded;
      prelim := seq(|t|, _ => 0.0);
      mod := seq(|t|, _ => 0.0);
      change := seq(|t|, _ => 0.0);
      shift := seq(|t|, _ => 0.0);
      y := seq(|t|, _ => 0.0);
      thread := seq(|t|, _ => Null);
      ancestor := seq(|t|, w => w);
      positions := map[];
    }

    /** getParent (graphLayout.ts:291-293). */
    function Parent(v: int): (p: int)
      requires WellFormed(tree) && 0 <= v < |tree|
      ensures p != Null <==> recorded && v != 0
      ensures p != Null ==> 0 <= p < v && v in tree[p].kids
    {
      assert Placed(tree, v);
      if recorded then tree[v].parent else Null
    }

    /** getLeftSibling (graphLayout.ts:275-284). */
    function LeftSibling(v: int): (s: int)
      requires WellFormed(tree) && 0 <= v < |tree|
      ensures !recorded ==> s == Null
      ensures s != Null ==> 0 < s < v && tree[s].parent == tree[v].parent
    {
      var p := Parent(v);
      if p == Null then Null
      else
        var i := IndexOf(tree[p].kids, v);
        assert Placed(tree, p);
        if i > 0 then
          KidsOrdered(tree, p, i - 1, i);
          tree[p].kids[i - 1]
        else Null
    }

    /** The left sibling is the previous entry of the parent's children, if any. */
    lemma {:induction false} LeftSiblingIsPrevious(p: int, k: int)
      requires WellFormed(tree) && 0 <= p < |tree| && 0 <= k < |tree[p].kids|
      ensures 0 <= tree[p].kids[k] < |tree| && LeftSibling(tree[p].kids[k]) == if recorded && k > 0 then tree[p].kids[k - 1] else Null
    {
      assert Placed(tree, p);
      var v := tree[p].kids[k];
      if recorded {
        var i := IndexOf(tree[p].kids, v);
        if i < k {
          KidsOrdered(tree, p, i, k);
        }
      }
    }

    /** nextRight (graphLayout.ts:255-260): the last child, else the thread. */
    function NextRight(v: int): (r: int)
      requires Valid() && 0 <= v < |tree|
      reads this
      ensures r == Null || (0 <= r < |tree| && tree[r].depth == tree[v].depth + 1)
      ensures tree[v].kids != [] ==> v < r < tree[v].end && tree[r].parent == v && tree[r].end == tree[v].end
      ensures tree[v].kids == [] ==> r == thread[v]
    {
      assert Placed(tree, v);
      if tree[v].kids != [] then tree[v].kids[|tree[v].kids| - 1] else thread[v]
    }

    /** nextLeft (graphLayout.ts:265-270): the first child, else the thread. */
    function NextLeft(v: int): (r: int)
      requires Valid() && 0 <= v < |tree|
      reads this
      ensures r == Null || (0 <= r < |tree| && tree[r].depth == tree[v].depth + 1)
      ensures tree[v].kids != [] ==> r == v + 1 && r < tree[v].end && tree[r].parent == v
      ensures tree[v].kids == [] ==> r == thread[v]
    {
      assert Placed(tree, v);
      if tree[v].kids != [] then tree[v].kids[0] else thread[v]
    }

    /**
     * moveSubtree (graphLayout.ts:211-218): shifts `wr` right by `s` and
     * spreads the shift over the siblings between `wl` and `wr`.
     */
    method MoveSubtree(wl: int, wr: int, s: real)
      requires Valid() && 0 <= wl < |tree| && 0 <= wr < |tree| && tree[wl].number != tree[wr].number
      modifies this`change, this`shift, this`prelim, this`mod
      ensures Valid()
      ensures var q := s / (tree[wr].number - tree[wl].number) as real;
              change == old(change)[wr := old(change[wr]) - q][wl := old(change[wl]) + q]
      ensures change[wl] + change[wr] == old(change[wl] + change[wr])
      ensures shift == old(shift)[wr := old(shift[wr]) + s]
      ensures prelim == old(prelim)[wr := old(prelim[wr]) + s]
      ensures mod == old(mod)[wr := old(mod[wr]) + s]
    {
      var subtrees := (tree[wr].number - tree[wl].number) as real;
      change := change[wr := change[wr] - s / subtrees];
      shift := shift[wr := shift[wr] + s];
      change := change[wl := change[wl] + s / subtrees];
      prelim := prelim[wr := prelim[wr] + s];
      mod := mod[wr := mod[wr] + s];
    }

    /** The children of `v`, each a later index whose parent is `v`. */
    function Kids(v: int): (ks: seq<int>)
      requires WellFormed(tree) && 0 <= v < |tree|
      ensures forall k :: 0 <= k < |ks| ==> v < ks[k] < |tree| && tree[ks[k]].parent == v
    {
      assert Placed(tree, v);
      tree[v].kids
    }

    /**
     * executeShifts (graphLayout.ts:223-234): one right-to-left pass over the
     * children of `v` adding to child `k` the shifts recorded for the later
     * children, each with the running sum of their changes.
     */
    method ExecuteShifts(v: int)
      requires Valid() && 0 <= v < |tree|
      modifies this`prelim, this`mod
      ensures Valid()
      ensures forall x {:trigger prelim[x]} {:trigger mod[x]} :: 0 <= x < |tree| && tree[x].parent != v ==>
                prelim[x] == old(prelim[x]) && mod[x] == old(mod[x])
      ensures var ks := Kids(v);
              forall k :: 0 <= k < |ks| ==>
                && prelim[ks[k]] == old(prelim[ks[k]]) + Applied(Gather(change, ks), Gather(shift, ks), k)
                && mod[ks[k]] == old(mod[ks[k]]) + Applied(Gather(change, ks), Gather(shift, ks), k)
    {
      var ks := Kids(v);
      forall j, k | 0 <= j < k < |ks|
        ensures ks[j] < ks[k]
      {
        KidsOrdered(tree, v, j, k);
      }
      prelim, mod := ShiftLoop(ks, prelim, mod, change, shift, Gather(change, ks), Gather(shift, ks));
    }

    /** The node whose children list holds `v`; Null for the layout root. */
    function TreeParent(v: int): (p: int)
      requires WellFormed(tree) && 0 <= v < |tree|
      ensures v == 0 ==> p == Null
      ensures v > 0 ==> 0 <= p < v && v in tree[p].kids && v < tree[v].end <= tree[p].end
    {
      assert Placed(tree, v);
      assert v > 0 ==> Placed(tree, tree[v].parent);
      tree[v].parent
    }

    /**
     * ancestor (graphLayout.ts:239-250): the ancestor recorded for
     * `innerLeft` when getParent finds it among the siblings of `node`,
     * otherwise the default ancestor.
     */
    function AncestorOf(innerLeft: int, node: int, defaultAncestor: int): (r: int)
      requires Valid() && 0 <= innerLeft < |tree| && 0 <= node < |tree|
      reads this
      ensures r == defaultAncestor || (recorded && 0 < r <= innerLeft && tree[r].parent == tree[node].parent)
    {
      var p := Parent(node);
      if p != Null && ancestor[innerLeft] in tree[p].kids then
        assert Placed(tree, p);
        ancestor[innerLeft]
      else defaultAncestor
    }

    /**
     * moveSubtree(ancestor(innerLeft, node, defaultAncestor), node, gap) of
     * graphLayout.ts:182: `node` and its pending shift move right by `gap`,
     * and the change handed to the earlier sibling keeps every suffix sum of
     * the siblings' changes from growing.
     */
    method MoveFromAncestor(innerLeft: int, node: int, defaultAncestor: int, gap: real)
      requires Valid() && 0 < node < |tree| && 0 <= innerLeft < node && gap > 0.0
      requires 0 < defaultAncestor < node && tree[defaultAncestor].parent == tree[node].parent
      modifies this`change, this`shift, this`prelim, this`mod
      ensures Valid()
      ensures prelim == old(prelim)[node := old(prelim[node]) + gap]
      ensures shift == old(shift)[node := old(shift[node]) + gap]
      ensures mod == old(mod)[node := old(mod[node]) + gap]
      ensures forall x :: 0 <= x < |tree| && !(TreeParent(node) < x <= node) ==> change[x] == old(change[x])
      ensures var ks := Kids(TreeParent(node)); SuffixesBelow(Gather(change, ks), Gather(old(change), ks))
    {
      var wl := AncestorOf(innerLeft, node, defaultAncestor);
      ghost var i, j := AncestorSlot(innerLeft, node, defaultAncestor);
      ghost var before := change;
      MoveSubtree(wl, node, gap);
      MoveKeepsSuffixes(before, change, Kids(TreeParent(node)), j, i, gap / (tree[node].number - tree[wl].number) as real);
    }

    /** Where the node `ancestor` picks sits among the children of the parent of `node`. */
    lemma {:induction false} AncestorSlot(innerLeft: int, node: int, defaultAncestor: int) returns (i: int, j: int)
      requires Valid() && 0 < node < |tree| && 0 <= innerLeft < node
      requires 0 < defaultAncestor < node && tree[defaultAncestor].parent == tree[node].parent
      ensures var ks := Kids(TreeParent(node)); var wl := AncestorOf(innerLeft, node, defaultAncestor);
              && 0 <= j < i < |ks| && ks[i] == node && ks[j] == wl
              && TreeParent(node) < wl < node && tree[wl].number < tree[node].number
              && (forall k :: 0 <= k < |ks| && k != i ==> ks[k] != ks[i])
              && (forall k :: 0 <= k < |ks| && k != j ==> ks[k] != ks[j])
    {
      var wl := AncestorOf(innerLeft, node, defaultAncestor);
      SiblingsOrdered(tree, wl, node);
      var p := TreeParent(node);
      var ks := Kids(p);
      assert Placed(tree, wl);
      i := IndexOf(ks, node);
      j := IndexOf(ks, wl);
      assert j < i by {
        if i < j { KidsOrdered(tree, p, i, j); }
      }
      KidDistinct(tree, p, i);
      KidDistinct(tree, p, j);
    }

    /** Below a left sibling of child `i` of `p`, the right contour stays left of that child. */
    lemma {:induction false} LeftContourStep(p: int, i: int, v: int)
      requires Valid() && 0 <= p < |tree| && 0 <= i < |Kids(p)| && p < v < Kids(p)[i]
      requires ThreadsInside(p + 1, Kids(p)[i])
      ensures NextRight(v) == Null || (p < NextRight(v) < Kids(p)[i] && tree[NextRight(v)].depth < |tree|)
    {
      EarlierSubtrees(tree, p, i, v);
      assert Placed(tree, v);
      if NextRight(v) != Null {
        assert Placed(tree, NextRight(v));
      }
    }

    /** Inside the subtree of `node`, both contours stay inside it. */
    lemma {:induction false} RightContourStep(node: int, v: int)
      requires Valid() && 0 <= node < |tree| && node <= v < tree[node].end && v < |tree|
      requires ThreadsInside(node, tree[node].end)
      ensures NextLeft(v) == Null || node <= NextLeft(v) < tree[node].end
      ensures NextRight(v) == Null || node <= NextRight(v) < tree[node].end
    {
      assert Placed(tree, node);
      assert Placed(tree, v);
    }

    /** Where apportion starts: `node`, its left sibling and their parent. */
    lemma {:induction false} SiblingStart(node: int, s: int) returns (i: int)
      requires Valid() && 0 <= node < |tree| && s == LeftSibling(node) && s != Null
      ensures 0 <= TreeParent(node) < s < node < tree[node].end <= |tree|
      ensures tree[s].depth == tree[node].depth < |tree|
      ensures 0 <= i < |Kids(TreeParent(node))| && Kids(TreeParent(node))[i] == node
    {
      var p := TreeParent(node);
      assert Placed(tree, node);
      assert Placed(tree, s);
      assert Placed(tree, p);
      i := IndexOf(tree[p].kids, node);
    }

    lemma {:induction false} ThreadsJoin(lo: int, mid: int, hi: int)
      requires Valid() && lo <= mid <= hi && ThreadsInside(lo, mid) && ThreadsInside(mid, hi)
      ensures ThreadsInside(lo, hi)
    {
    }

    /** `v.ancestor = a` for a node `a` at or before `v` (graphLayout.ts:173). */
    method SetAncestor(v: int, a: int)
      requires Valid() && 0 <= a <= v < |tree|
      modifies this`ancestor
      ensures Valid() && ancestor == old(ancestor)[v := a]
    {
      ancestor := ancestor[v := a];
    }

    /**
     * One round of apportion's loop (graphLayout.ts:168-190): every contour
     * node moves one level down, the new outer right node records `node` as
     * its ancestor, and `node` moves right when the inner contours are closer
     * than `Distance`. `ok` is false where line 173 would dereference a
     * missing right contour node.
     */
    method ApportionStep(node: int, ghost i: int, defaultAncestor: int,
                         innerLeft: int, innerRight: int, outerLeft: int, outerRight: int,
                         sumInnerLeft: real, sumInnerRight: real, sumOuterLeft: real, sumOuterRight: real)
      returns (ok: bool, innerLeft': int, innerRight': int, outerLeft': int, outerRight': int,
               sumInnerLeft': real, sumInnerRight': real, sumOuterLeft': real, sumOuterRight': real)
      requires Valid() && 0 < node < |tree| && node < tree[node].end <= |tree|
      requires 0 <= i < |Kids(TreeParent(node))| && Kids(TreeParent(node))[i] == node
      requires 0 < defaultAncestor < node && tree[defaultAncestor].parent == tree[node].parent
      requires ThreadsInside(TreeParent(node) + 1, node) && ThreadsInside(node, tree[node].end)
      requires TreeParent(node) < innerLeft < node && outerLeft == innerRight
      requires node <= innerRight < tree[node].end && node <= outerRight < tree[node].end
      requires tree[innerLeft].depth == tree[innerRight].depth == tree[outerRight].depth
      requires NextRight(innerLeft) != Null && NextLeft(innerRight) != Null
      modifies this`prelim, this`mod, this`change, this`shift, this`ancestor
      ensures Valid()
      ensures ok ==>
                && TreeParent(node) < innerLeft' < node && outerLeft' == innerRight'
                && node <= innerRight' < tree[node].end && node <= outerRight' < tree[node].end
                && tree[innerLeft'].depth == tree[innerRight'].depth == tree[outerRight'].depth
                && tree[innerLeft].depth < tree[innerLeft'].depth < |tree|
      ensures forall x :: 0 <= x < |tree| && x != node ==> prelim[x] == old(prelim[x]) && shift[x] == old(shift[x])
      ensures prelim[node] - old(prelim[node]) == shift[node] - old(shift[node])
      ensures forall x :: 0 <= x < |tree| && !(node <= x < tree[node].end) ==>
                mod[x] == old(mod[x]) && ancestor[x] == old(ancestor[x])
      ensures forall x :: 0 <= x < |tree| && !(TreeParent(node) < x <= node) ==> change[x] == old(change[x])
      ensures var ks := Kids(TreeParent(node)); SuffixesBelow(Gather(change, ks), Gather(old(change), ks))
    {
      sumInnerLeft', sumInnerRight', sumOuterLeft', sumOuterRight' := sumInnerLeft, sumInnerRight, sumOuterLeft, sumOuterRight;
      LeftContourStep(TreeParent(node), i, innerLeft);
      RightContourStep(node, innerRight);
      RightContourStep(node, outerRight);
      innerLeft' := NextRight(innerLeft);
      innerRight' := NextLeft(innerRight);
      outerLeft' := NextLeft(outerLeft);
      outerRight' := NextRight(outerRight);
      ok := outerRight' != Null;
      if ok {
        SetAncestor(outerRight', node);
        var gap := prelim[innerLeft'] + sumInnerLeft' - (prelim[innerRight'] + sumInnerRight') + Distance;
        if gap > 0.0 {
          MoveFromAncestor(innerLeft', node, defaultAncestor, gap);
          sumInnerRight' := sumInnerRight' + gap;
          sumOuterRight' := sumOuterRight' + gap;
        }
        sumInnerLeft' := sumInnerLeft' + mod[innerLeft'];
        sumInnerRight' := sumInnerRight' + mod[innerRight'];
        sumOuterLeft' := sumOuterLeft' + mod[outerLeft'];
        sumOuterRight' := sumOuterRight' + mod[outerRight'];
      }
    }

    /**
     * The loop of apportion (graphLayout.ts:157-191): it walks the right
     * contour of the left siblings' subtrees and both contours of the subtree
     * of `node` down together, from `leftSibling` and `node`, and returns
     * where they stopped with the inner left and outer right mod sums.
     */
    method ApportionLoop(node: int, ghost i: int, defaultAncestor: int, leftSibling: int)
      returns (ok: bool, innerLeft: int, innerRight: int, outerLeft: int, outerRight: int,
               sumInnerLeft: real, sumOuterRight: real)
      requires Valid() && 0 < node < |tree| && node < tree[node].end <= |tree|
      requires 0 <= i < |Kids(TreeParent(node))| && Kids(TreeParent(node))[i] == node
      requires 0 < defaultAncestor < node && tree[defaultAncestor].parent == tree[node].parent
      requires ThreadsInside(TreeParent(node) + 1, node) && ThreadsInside(node, tree[node].end)
      requires TreeParent(node) < leftSibling < node && tree[leftSibling].depth == tree[node].depth < |tree|
      modifies this`prelim, this`mod, this`change, this`shift, this`ancestor
      ensures Valid()
      ensures ok ==>
                && TreeParent(node) < innerLeft < node && outerLeft == innerRight
                && node <= innerRight < tree[node].end && node <= outerRight < tree[node].end
                && tree[innerLeft].depth == tree[outerRight].depth
                && !(NextRight(innerLeft) != Null && NextLeft(innerRight) != Null)
      ensures forall x :: 0 <= x < |tree| && x != node ==> prelim[x] == old(prelim[x]) && shift[x] == old(shift[x])
      ensures prelim[node] - old(prelim[node]) == shift[node] - old(shift[node])
      ensures forall x :: 0 <= x < |tree| && !(node <= x < tree[node].end) ==>
                mod[x] == old(mod[x]) && ancestor[x] == old(ancestor[x])
      ensures forall x :: 0 <= x < |tree| && !(TreeParent(node) < x <= node) ==> change[x] == old(change[x])
      ensures var ks := Kids(TreeParent(node)); SuffixesBelow(Gather(change, ks), Gather(old(change), ks))
      ensures NextRight(leftSibling) == Null ==> ok && innerLeft == leftSibling
    {
      var p := TreeParent(node);
      var e := tree[node].end;
      ok := true;
      innerRight, outerRight, innerLeft, outerLeft := node, node, leftSibling, node;
      var sumInnerRight: real, sumOuterLeft: real;
      sumInnerRight, sumOuterRight, sumInnerLeft, sumOuterLeft :=
        mod[innerRight], mod[outerRight], mod[innerLeft], mod[outerLeft];
      while NextRight(innerLeft) != Null && NextLeft(innerRight) != Null
        invariant Valid()
        invariant p < innerLeft < node && node <= innerRight < e && outerLeft == innerRight && node <= outerRight < e
        invariant tree[innerLeft].depth == tree[innerRight].depth == tree[outerRight].depth < |tree|
        invariant forall x :: 0 <= x < |tree| && x != node ==> prelim[x] == old(prelim[x]) && shift[x] == old(shift[x])
        invariant prelim[node] - old(prelim[node]) == shift[node] - old(shift[node])
        invariant forall x :: 0 <= x < |tree| && !(node <= x < e) ==> mod[x] == old(mod[x]) && ancestor[x] == old(ancestor[x])
        invariant forall x :: 0 <= x < |tree| && !(p < x <= node) ==> change[x] == old(change[x])
        invariant SuffixesBelow(Gather(change, Kids(p)), Gather(old(change), Kids(p)))
        invariant NextRight(leftSibling) == Null ==> ok && innerLeft == leftSibling
        decreases |tree| - tree[innerLeft].depth
      {
        ghost var before := change;
        ok, innerLeft, innerRight, outerLeft, outerRight, sumInnerLeft, sumInnerRight, sumOuterLeft, sumOuterRight :=
          ApportionStep(node, i, defaultAncestor, innerLeft, innerRight, outerLeft, outerRight,
                        sumInnerLeft, sumInnerRight, sumOuterLeft, sumOuterRight);
        SuffixesBelowTrans(Gather(change, Kids(p)), Gather(before, Kids(p)), Gather(old(change), Kids(p)));
        if !ok {
          return;
        }
      }
    }

    /**
     * Lines 193-196 of apportion: the contour node `v` that has run out gets
     * a thread to `target`, one level below it, and its mod adjusted by `delta`.
     */
    method SetThread(v: int, target: int, delta: real)
      requires Valid() && 0 <= v < |tree| && 0 <= target < |tree| && tree[target].depth == tree[v].depth + 1
      modifies this`thread, this`mod
      ensures Valid()
      ensures thread == old(thread)[v := target]
      ensures mod == old(mod)[v := old(mod[v]) + delta]
    {
      thread := thread[v := target];
      mod := mod[v := mod[v] + delta];
    }

    /**
     * The end of apportion (graphLayout.ts:193-202) once its loop has
     * stopped. Only the right contour can get a thread: `outerLeft` is
     * `innerRight`, so the test of line 198 is always false.
     */
    method ApportionEnd(node: int, ghost i: int, innerLeft: int, innerRight: int, outerLeft: int, outerRight: int,
                        sumInnerLeft: real, sumOuterRight: real)
      requires Valid() && 0 < node < |tree| && node < tree[node].end <= |tree|
      requires 0 <= i < |Kids(TreeParent(node))| && Kids(TreeParent(node))[i] == node
      requires ThreadsInside(TreeParent(node) + 1, node) && ThreadsInside(node, tree[node].end)
      requires TreeParent(node) < innerLeft < node && outerLeft == innerRight
      requires node <= innerRight < tree[node].end && node <= outerRight < tree[node].end
      requires tree[innerLeft].depth == tree[outerRight].depth
      modifies this`thread, this`mod
      ensures Valid()
      ensures forall x :: 0 <= x < |tree| && !(node <= x < tree[node].end) ==> mod[x] == old(mod[x]) && thread[x] == old(thread[x])
      ensures ThreadsInside(TreeParent(node) + 1, tree[node].end)
      ensures old(NextRight(innerLeft)) == Null ==> thread == old(thread)
    {
      ThreadsJoin(TreeParent(node) + 1, node, tree[node].end);
      if NextRight(innerLeft) != Null && NextRight(outerRight) == Null {
        LeftContourStep(TreeParent(node), i, innerLeft);
        SetThread(outerRight, NextRight(innerLeft), sumInnerLeft - sumOuterRight);
      }
      if NextLeft(innerRight) != Null && NextLeft(outerLeft) == Null {
        assert false;
      }
    }

    /**
     * apportion (graphLayout.ts:149-206). `outerLeft` starts at `node`
     * itself (line 160), so it always equals `innerRight`: the branch of
     * lines 198-202 never runs and the default ancestor comes back
     * unchanged. `ok` is false where line 173 would dereference a missing
     * right contour node.
     */
    method Apportion(node: int, defaultAncestor: int) returns (r: int, ok: bool)
      requires Valid() && 0 <= node < |tree|
      requires LeftSibling(node) != Null ==>
                 0 < defaultAncestor < node && tree[defaultAncestor].parent == tree[node].parent
      requires ThreadsInside(tree[node].parent + 1, node) && ThreadsInside(node, tree[node].end)
      modifies this`prelim, this`mod, this`change, this`shift, this`thread, this`ancestor
      ensures Valid() && r == defaultAncestor
      ensures !recorded ==>
                ok && prelim == old(prelim) && mod == old(mod) && change == old(change)
                && shift == old(shift) && thread == old(thread) && ancestor == old(ancestor)
      ensures forall x :: 0 <= x < |tree| && x != node ==> prelim[x] == old(prelim[x]) && shift[x] == old(shift[x])
      ensures prelim[node] - old(prelim[node]) == shift[node] - old(shift[node])
      ensures forall x :: 0 <= x < |tree| && !(node <= x < tree[node].end) ==>
                mod[x] == old(mod[x]) && thread[x] == old(thread[x]) && ancestor[x] == old(ancestor[x])
      ensures forall x :: 0 <= x < |tree| && !(tree[node].parent < x <= node) ==> change[x] == old(change[x])
      ensures node > 0 ==> var ks := Kids(TreeParent(node)); SuffixesBelow(Gather(change, ks), Gather(old(change), ks))
      ensures ThreadsInside(tree[node].parent + 1, tree[node].end)
      ensures LeftSibling(node) == Null || old(NextRight(LeftSibling(node))) == Null ==> ok && thread == old(thread)
    {
      r, ok := defaultAncestor, true;
      var leftSibling := LeftSibling(node);
      ThreadsJoin(TreeParent(node) + 1, node, tree[node].end);
      if leftSibling != Null {
        ghost var i := SiblingStart(node, leftSibling);
        var innerLeft: int, innerRight: int, outerLeft: int, outerRight: int, sumInnerLeft: real, sumOuterRight: real;
        ok, innerLeft, innerRight, outerLeft, outerRight, sumInnerLeft, sumOuterRight :=
          ApportionLoop(node, i, r, leftSibling);
        if ok {
          ApportionEnd(node, i, innerLeft, innerRight, outerLeft, outerRight, sumInnerLeft, sumOuterRight);
        }
      }
    }

    /** Where child `k` of `v` sits: its subtree comes right after the earlier children's. */
    lemma {:induction false} ChildSlot(v: int, k: int)
      requires WellFormed(tree) && 0 <= v < |tree| && 0 <= k < |Kids(v)|
      ensures var ks := Kids(v); var c := ks[k];
              && v < c < tree[c].end <= tree[v].end <= |tree| && tree[c].parent == v
              && (k == 0 ==> c == v + 1)
              && (if k + 1 < |ks| then ks[k + 1] else tree[v].end) == tree[c].end
              && (forall j :: 0 <= j < k ==> ks[j] < c)
              && (forall j :: k < j < |ks| ==> tree[c].end <= ks[j])
              && LeftSibling(c) == (if recorded && k > 0 then ks[k - 1] else Null)
    {
      ChildBounds(v, k);
      ChildOrder(v, k);
      LeftSiblingIsPrevious(v, k);
    }

    lemma {:induction false} ChildBounds(v: int, k: int)
      requires WellFormed(tree) && 0 <= v < |tree| && 0 <= k < |Kids(v)|
      ensures var ks := Kids(v); var c := ks[k];
              && v < c < tree[c].end <= tree[v].end <= |tree| && tree[c].parent == v
              && (k == 0 ==> c == v + 1)
              && (if k + 1 < |ks| then ks[k + 1] else tree[v].end) == tree[c].end
    {
      assert Placed(tree, v);
      assert Placed(tree, Kids(v)[k]);
    }

    lemma {:induction false} ChildOrder(v: int, k: int)
      requires WellFormed(tree) && 0 <= v < |tree| && 0 <= k < |Kids(v)|
      ensures var ks := Kids(v);
              && (forall j :: 0 <= j < k ==> ks[j] < ks[k])
              && (forall j :: k < j < |ks| ==> tree[ks[k]].end <= ks[j])
    {
      var ks := Kids(v);
      ChildBounds(v, k);
      forall j | 0 <= j < k
        ensures ks[j] < ks[k]
      {
        KidsOrdered(tree, v, j, k);
      }
      forall j | k + 1 < j < |ks|
        ensures ks[k + 1] < ks[j]
      {
        KidsOrdered(tree, v, k + 1, j);
      }
    }

    lemma {:induction false} ChildSubtrees(v: int, k: int)
      requires WellFormed(tree) && 0 <= v < |tree| && 0 <= k < |Kids(v)|
      ensures var c := Kids(v)[k];
              && tree[c].end <= |tree|
              && (forall w :: v < w < c ==> tree[w].end <= c)
              && (forall w :: c <= w < tree[c].end ==> tree[w].end <= tree[c].end)
    {
      var c := Kids(v)[k];
      assert Placed(tree, v);
      assert Placed(tree, c);
      forall w | v < w < c
        ensures tree[w].end <= c
      {
        EarlierSubtrees(tree, v, k, w);
      }
    }

    /** The subtree of `v` and its children. */
    lemma {:induction false} SubtreeOf(v: int)
      requires WellFormed(tree) && 0 <= v < |tree|
      ensures v < tree[v].end <= |tree| && tree[v].parent != v
      ensures Kids(v) == [] <==> tree[v].end == v + 1
      ensures forall k :: 0 <= k < |Kids(v)| ==> v < Kids(v)[k] < tree[v].end
    {
      assert Placed(tree, v);
    }

    /** The subtree of `v` holds the subtrees of its nodes. */
    lemma {:induction false} SubtreeClosed(v: int)
      requires WellFormed(tree) && 0 <= v < |tree|
      ensures tree[v].end <= |tree| && forall w :: v <= w < tree[v].end ==> tree[w].end <= tree[v].end
    {
      assert Placed(tree, v);
    }

    /** Only the children of `v` have `v` as parent. */
    lemma {:induction false} ParentedInside(v: int)
      requires WellFormed(tree) && 0 <= v < |tree|
      ensures forall x :: 0 <= x < |tree| && tree[x].parent == v ==> v < x < tree[v].end
    {
      forall x | 0 <= x < |tree| && tree[x].parent == v
        ensures v < x < tree[v].end
      {
        assert Placed(tree, x);
        assert Placed(tree, v);
      }
    }

    /** A node with a left sibling is not the first entry of its parent's children list. */
    lemma {:induction false} NumberedAfter(v: int)
      requires WellFormed(tree) && 0 <= v < |tree| && LeftSibling(v) != Null
      ensures tree[v].number != 0
    {
      var s := LeftSibling(v);
      SiblingsOrdered(tree, s, v);
      assert Placed(tree, s);
    }

    /** Positions may change outside a closed range's interior without unspreading it. */
    lemma {:induction false} SpreadKept(p: seq<real>, q: seq<real>, lo: int, hi: int)
      requires WellFormed(tree) && |p| == |tree| && |q| == |tree| && 0 <= lo <= hi <= |tree|
      requires forall w :: lo <= w < hi ==> tree[w].end <= hi
      requires forall x :: lo < x < hi ==> p[x] == q[x]
      requires SpreadIn(p, lo, hi)
      ensures SpreadIn(q, lo, hi)
    {
      forall w | lo <= w < hi
        ensures Spread(q, w)
      {
        assert Spread(p, w);
        assert Placed(tree, w);
      }
    }

    /** Positions may change at the children of `v` without unspreading a range not holding `v`. */
    lemma {:induction false} SpreadKeptBy(p: seq<real>, q: seq<real>, lo: int, hi: int, v: int)
      requires WellFormed(tree) && |p| == |tree| && |q| == |tree|
      requires forall x :: 0 <= x < |tree| && tree[x].parent != v ==> p[x] == q[x]
      requires !(lo <= v < hi) && SpreadIn(p, lo, hi)
      ensures SpreadIn(q, lo, hi)
    {
      forall w | lo <= w < hi && 0 <= w < |tree|
        ensures Spread(q, w)
      {
        assert Spread(p, w);
      }
    }

    lemma {:induction false} SpreadJoin(p: seq<real>, lo: int, mid: int, hi: int)
      requires WellFormed(tree) && |p| == |tree| && lo <= mid <= hi
      requires SpreadIn(p, lo, mid) && SpreadIn(p, mid, hi)
      ensures SpreadIn(p, lo, hi)
    {
    }

    /**
     * executeShifts on children placed one unit plus their own shift apart,
     * whose changes have no positive suffix sum, leaves them spread.
     */
    lemma {:induction false} ExecutedApart(v: int, before: seq<real>)
      requires Valid() && 0 <= v < |tree| && |before| == |tree|
      requires var ks := Kids(v);
               && Gapped(Gather(before, ks), Gather(shift, ks), |ks|)
               && NonPositiveSuffixes(Gather(change, ks))
               && (forall k :: 0 <= k < |ks| ==>
                     prelim[ks[k]] == before[ks[k]] + Applied(Gather(change, ks), Gather(shift, ks), k))
      ensures Spread(prelim, v)
    {
      var ks := Kids(v);
      ShiftsSpread(Gather(before, ks), Gather(change, ks), Gather(shift, ks));
    }

    /** executeShifts with no recorded change or shift moves nothing. */
    lemma {:induction false} NothingShifted(v: int, before: seq<real>, beforeMod: seq<real>)
      requires Valid() && 0 <= v < |tree| && |before| == |tree| && |beforeMod| == |tree|
      requires forall k :: 0 <= k < |Kids(v)| ==> change[Kids(v)[k]] == 0.0 && shift[Kids(v)[k]] == 0.0
      requires forall x :: 0 <= x < |tree| && tree[x].parent != v ==> prelim[x] == before[x] && mod[x] == beforeMod[x]
      requires var ks := Kids(v);
               forall k :: 0 <= k < |ks| ==>
                 && prelim[ks[k]] == before[ks[k]] + Applied(Gather(change, ks), Gather(shift, ks), k)
                 && mod[ks[k]] == beforeMod[ks[k]] + Applied(Gather(change, ks), Gather(shift, ks), k)
      ensures prelim == before && mod == beforeMod
    {
      var ks := Kids(v);
      forall k | 0 <= k < |ks|
        ensures Applied(Gather(change, ks), Gather(shift, ks), k) == 0.0
      {
        AppliedZero(Gather(change, ks), Gather(shift, ks), k);
      }
      forall x | 0 <= x < |tree| && tree[x].parent == v
        ensures prelim[x] == before[x] && mod[x] == beforeMod[x]
      {
        assert Placed(tree, x);
        var k := IndexOf(ks, x);
      }
    }

    /**
     * The leaf branch of firstWalk (graphLayout.ts:98-107): the first child
     * of the original children list sits at 0, any other leaf one unit after
     * its left sibling, if getParent finds one.
     */
    method PlaceLeaf(v: int)
      requires Valid() && 0 <= v < |tree| && Kids(v) == [] && prelim[v] == 0.0
      modifies this`prelim
      ensures Valid()
      ensures prelim == old(prelim)[v := if LeftSibling(v) != Null then old(prelim[LeftSibling(v)]) + Distance else 0.0]
    {
      if LeftSibling(v) != Null {
        NumberedAfter(v);
      }
      if tree[v].number == 0 {
        prelim := prelim[v := 0.0];
      } else {
        var leftSibling := LeftSibling(v);
        if leftSibling != Null {
          prelim := prelim[v := prelim[leftSibling] + Distance];
        }
      }
    }

    /**
     * The placement of an internal node once its children are shifted
     * (graphLayout.ts:119-128): one unit after its left sibling with a
     * modifier that centres its children under it, or at their midpoint.
     */
    method PlaceInternal(v: int)
      requires Valid() && 0 <= v < |tree| && Kids(v) != []
      modifies this`prelim, this`mod
      ensures Valid()
      ensures var ks := Kids(v);
              var midpoint := (old(prelim[ks[0]]) + old(prelim[ks[|ks| - 1]])) / 2.0;
              if LeftSibling(v) != Null then
                prelim == old(prelim)[v := old(prelim[LeftSibling(v)]) + Distance]
                && mod == old(mod)[v := prelim[v] - midpoint]
              else
                prelim == old(prelim)[v := midpoint] && mod == old(mod)
    {
      var ks := Kids(v);
      var midpoint := (prelim[ks[0]] + prelim[ks[|ks| - 1]]) / 2.0;
      var leftSibling := LeftSibling(v);
      if leftSibling != Null {
        prelim := prelim[v := prelim[leftSibling] + Distance];
        mod := mod[v := prelim[v] - midpoint];
      } else {
        prelim := prelim[v := midpoint];
      }
    }

    /**
     * firstWalk (graphLayout.ts:97-130) on the subtree of `v`, which buildTree
     * has just made. It touches nothing outside that subtree, leaves its
     * threads inside it, and places `v` one unit after its left sibling, or a
     * first leaf at 0, with `v` centred over its children once its modifier is
     * applied to them. Where getParent finds parents every node of the subtree
     * ends with its children spread at least one unit apart; where it does not
     * (the code as written) nothing changes at all. `ok` is false where
     * apportion would fail.
     */
    method FirstWalk(v: int) returns (ok: bool)
      requires Valid() && 0 <= v < |tree| && Fresh(v, tree[v].end)
      modifies this`prelim, this`mod, this`change, this`shift, this`thread, this`ancestor
      decreases tree[v].end - v, 3
      ensures Valid()
      ensures forall x :: 0 <= x < |tree| && !(v <= x < tree[v].end) ==> prelim[x] == old(prelim[x]) && mod[x] == old(mod[x])
      ensures forall x :: 0 <= x < |tree| && !(v < x < tree[v].end) ==>
                change[x] == old(change[x]) && shift[x] == old(shift[x])
                && thread[x] == old(thread[x]) && ancestor[x] == old(ancestor[x])
      ensures ThreadsInside(v, tree[v].end)
      ensures !recorded ==>
                ok && prelim == old(prelim) && mod == old(mod) && change == old(change)
                && shift == old(shift) && thread == old(thread) && ancestor == old(ancestor)
      ensures ok && LeftSibling(v) != Null ==> prelim[v] == prelim[LeftSibling(v)] + Distance
      ensures ok && LeftSibling(v) == Null && Kids(v) == [] ==> prelim[v] == 0.0
      ensures ok && Kids(v) != [] ==>
                prelim[v] - mod[v] == (prelim[Kids(v)[0]] + prelim[Kids(v)[|Kids(v)| - 1]]) / 2.0
      ensures recorded && ok ==> SpreadIn(prelim, v, tree[v].end)
      ensures Flat(tree) && Unthreaded(old(thread)) ==> ok && Unthreaded(thread)
    {
      SubtreeOf(v);
      if Kids(v) == [] {
        PlaceLeaf(v);
        ok := true;
      } else {
        ok := WalkInternal(v);
      }
    }

    /** The internal branch of firstWalk (graphLayout.ts:108-129). */
    method WalkInternal(v: int) returns (ok: bool)
      requires Valid() && 0 <= v < |tree| && Kids(v) != [] && Fresh(v, tree[v].end)
      modifies this`prelim, this`mod, this`change, this`shift, this`thread, this`ancestor
      decreases tree[v].end - v, 2
      ensures Valid()
      ensures forall x :: 0 <= x < |tree| && !(v <= x < tree[v].end) ==> prelim[x] == old(prelim[x]) && mod[x] == old(mod[x])
      ensures forall x :: 0 <= x < |tree| && !(v < x < tree[v].end) ==>
                change[x] == old(change[x]) && shift[x] == old(shift[x])
                && thread[x] == old(thread[x]) && ancestor[x] == old(ancestor[x])
      ensures ThreadsInside(v, tree[v].end)
      ensures !recorded ==>
                ok && prelim == old(prelim) && mod == old(mod) && change == old(change)
                && shift == old(shift) && thread == old(thread) && ancestor == old(ancestor)
      ensures ok && LeftSibling(v) != Null ==> prelim[v] == prelim[LeftSibling(v)] + Distance
      ensures ok ==> prelim[v] - mod[v] == (prelim[Kids(v)[0]] + prelim[Kids(v)[|Kids(v)| - 1]]) / 2.0
      ensures recorded && ok ==> SpreadIn(prelim, v, tree[v].end)
      ensures Flat(tree) && Unthreaded(old(thread)) ==> ok && Unthreaded(thread)
    {
      SubtreeOf(v);
      ok := WalkChildren(v);
      ThreadsJoin(v, v + 1, tree[v].end);
      if ok {
        FinishInternal(v);
      }
    }

    /** executeShifts(v) and the placement of `v` (graphLayout.ts:117-128) once its children are walked. */
    method FinishInternal(v: int)
      requires Valid() && 0 <= v < |tree| && Kids(v) != [] && mod[v] == 0.0
      requires !recorded ==> Fresh(v, tree[v].end)
      requires recorded ==>
                 && SpreadIn(prelim, v + 1, tree[v].end)
                 && Gapped(Gather(prelim, Kids(v)), Gather(shift, Kids(v)), |Kids(v)|)
                 && NonPositiveSuffixes(Gather(change, Kids(v)))
      modifies this`prelim, this`mod
      ensures Valid()
      ensures forall x :: 0 <= x < |tree| && !(v <= x < tree[v].end) ==> prelim[x] == old(prelim[x]) && mod[x] == old(mod[x])
      ensures !recorded ==> prelim == old(prelim) && mod == old(mod)
      ensures LeftSibling(v) != Null ==> prelim[v] == prelim[LeftSibling(v)] + Distance
      ensures prelim[v] - mod[v] == (prelim[Kids(v)[0]] + prelim[Kids(v)[|Kids(v)| - 1]]) / 2.0
      ensures recorded ==> SpreadIn(prelim, v, tree[v].end)
    {
      SubtreeOf(v);
      ParentedInside(v);
      ShiftChildren(v);
      ChildBounds(v, 0);
      ChildBounds(v, |Kids(v)| - 1);
      ghost var p2 := prelim;
      PlaceInternal(v);
      if recorded {
        SubtreeClosed(v);
        SpreadKept(p2, prelim, v, tree[v].end);
      }
    }

    /** executeShifts(v) (graphLayout.ts:117) on children walked and apportioned. */
    method ShiftChildren(v: int)
      requires Valid() && 0 <= v < |tree| && Kids(v) != []
      requires !recorded ==> Fresh(v, tree[v].end)
      requires recorded ==>
                 && SpreadIn(prelim, v + 1, tree[v].end)
                 && Gapped(Gather(prelim, Kids(v)), Gather(shift, Kids(v)), |Kids(v)|)
                 && NonPositiveSuffixes(Gather(change, Kids(v)))
      modifies this`prelim, this`mod
      ensures Valid()
      ensures forall x {:trigger prelim[x]} {:trigger mod[x]} :: 0 <= x < |tree| && tree[x].parent != v ==>
                prelim[x] == old(prelim[x]) && mod[x] == old(mod[x])
      ensures !recorded ==> prelim == old(prelim) && mod == old(mod)
      ensures recorded ==> SpreadIn(prelim, v, tree[v].end)
    {
      SubtreeOf(v);
      ghost var p1, m1 := prelim, mod;
      ExecuteShifts(v);
      if recorded {
        ExecutedApart(v, p1);
        SpreadKeptBy(p1, prelim, v + 1, tree[v].end, v);
        SpreadJoin(prelim, v, v + 1, tree[v].end);
      } else {
        forall k | 0 <= k < |Kids(v)|
          ensures change[Kids(v)[k]] == 0.0 && shift[Kids(v)[k]] == 0.0
        {
          ChildBounds(v, k);
        }
        NothingShifted(v, p1, m1);
      }
    }

    /**
     * The first `k` children of `v`, whose subtrees end at `next`, are walked
     * and apportioned: their subtrees are spread, each sits one unit plus its
     * pending shift after the previous one, and no suffix sum of their
     * changes exceeds that of `base`.
     */
    ghost predicate ChildrenPlaced(v: int, k: int, next: int, p: seq<real>, sh: seq<real>, ch: seq<real>, base: seq<real>)
      requires WellFormed(tree) && 0 <= v < |tree| && |p| == |tree| && |sh| == |tree| && |ch| == |tree| && |base| == |tree|
    {
      && SpreadIn(p, v + 1, next)
      && Gapped(Gather(p, Kids(v)), Gather(sh, Kids(v)), k)
      && SuffixesBelow(Gather(ch, Kids(v)), Gather(base, Kids(v)))
    }

    /** One more child walked and apportioned without touching its left siblings' subtrees. */
    lemma {:induction false} ChildPlaced(v: int, k: int, p0: seq<real>, s0: seq<real>, c0: seq<real>,
                      p1: seq<real>, s1: seq<real>, c1: seq<real>, base: seq<real>)
      requires WellFormed(tree) && 0 <= v < |tree| && 0 <= k < |Kids(v)|
      requires |p0| == |s0| == |c0| == |p1| == |s1| == |c1| == |base| == |tree|
      requires ChildrenPlaced(v, k, Kids(v)[k], p0, s0, c0, base)
      requires var c := Kids(v)[k];
               forall x :: 0 <= x < |tree| && !(c <= x < tree[c].end) ==> p1[x] == p0[x] && s1[x] == s0[x]
      requires SpreadIn(p1, Kids(v)[k], tree[Kids(v)[k]].end)
      requires k > 0 ==> p1[Kids(v)[k]] == p1[Kids(v)[k - 1]] + Distance + s1[Kids(v)[k]]
      requires SuffixesBelow(Gather(c1, Kids(v)), Gather(c0, Kids(v)))
      ensures ChildrenPlaced(v, k + 1, tree[Kids(v)[k]].end, p1, s1, c1, base)
    {
      var ks := Kids(v);
      ChildSlot(v, k);
      assert forall j :: 0 <= j < k ==> p1[ks[j]] == p0[ks[j]] && s1[ks[j]] == s0[ks[j]];
      GappedExtend(Gather(p0, ks), Gather(s0, ks), Gather(p1, ks), Gather(s1, ks), k);
      ChildSubtrees(v, k);
      SpreadKept(p0, p1, v + 1, ks[k]);
      SpreadJoin(p1, v + 1, ks[k], tree[ks[k]].end);
      SuffixesBelowTrans(Gather(c1, ks), Gather(c0, ks), Gather(base, ks));
    }

    /** All children placed, starting from no changes: what executeShifts needs. */
    lemma {:induction false} ChildrenAllPlaced(v: int, p: seq<real>, sh: seq<real>, ch: seq<real>, base: seq<real>)
      requires WellFormed(tree) && 0 <= v < |tree| && |p| == |tree| && |sh| == |tree| && |ch| == |tree| && |base| == |tree|
      requires ChildrenPlaced(v, |Kids(v)|, tree[v].end, p, sh, ch, base)
      requires forall x :: v < x < tree[v].end && x < |base| ==> base[x] == 0.0
      ensures SpreadIn(p, v + 1, tree[v].end)
      ensures Gapped(Gather(p, Kids(v)), Gather(sh, Kids(v)), |Kids(v)|) && NonPositiveSuffixes(Gather(ch, Kids(v)))
    {
      SubtreeOf(v);
      BelowZero(Gather(ch, Kids(v)), Gather(base, Kids(v)));
    }

    /**
     * The forEach of firstWalk (graphLayout.ts:110-115): each child in turn
     * gets its first walk and is then apportioned against its left
     * siblings, with the first child as the default ancestor throughout.
     * Afterwards each child sits one unit plus its pending shift after the
     * previous one and no suffix sum of the children's changes is positive.
     */
    method WalkChildren(v: int) returns (ok: bool)
      requires Valid() && 0 <= v < |tree| && Kids(v) != [] && Fresh(v, tree[v].end)
      modifies this`prelim, this`mod, this`change, this`shift, this`thread, this`ancestor
      decreases tree[v].end - v, 1
      ensures Valid()
      ensures forall x :: 0 <= x < |tree| && !(v < x < tree[v].end) ==>
                prelim[x] == old(prelim[x]) && mod[x] == old(mod[x]) && change[x] == old(change[x])
                && shift[x] == old(shift[x]) && thread[x] == old(thread[x]) && ancestor[x] == old(ancestor[x])
      ensures ThreadsInside(v + 1, tree[v].end)
      ensures !recorded ==>
                ok && prelim == old(prelim) && mod == old(mod) && change == old(change)
                && shift == old(shift) && thread == old(thread) && ancestor == old(ancestor)
      ensures recorded && ok ==> SpreadIn(prelim, v + 1, tree[v].end)
      ensures recorded && ok ==>
                Gapped(Gather(prelim, Kids(v)), Gather(shift, Kids(v)), |Kids(v)|) && NonPositiveSuffixes(Gather(change, Kids(v)))
      ensures Flat(tree) && Unthreaded(old(thread)) ==> ok && Unthreaded(thread)
    {
      var ks := Kids(v);
      var defaultAncestor := ks[0];
      var k := 0;
      ghost var next := v + 1;
      ok := true;
      ChildBounds(v, 0);
      while ok && k < |ks|
        invariant 0 <= k <= |ks| && v < next <= tree[v].end && next == if k < |ks| then ks[k] else tree[v].end
        invariant defaultAncestor == ks[0]
        invariant Valid() && Fresh(next, tree[v].end) && ThreadsInside(v + 1, next)
        invariant forall x :: 0 <= x < |tree| && !(v < x < tree[v].end) ==>
                    prelim[x] == old(prelim[x]) && mod[x] == old(mod[x]) && change[x] == old(change[x])
                    && shift[x] == old(shift[x]) && thread[x] == old(thread[x]) && ancestor[x] == old(ancestor[x])
        invariant !recorded ==>
                    ok && prelim == old(prelim) && mod == old(mod) && change == old(change)
                    && shift == old(shift) && thread == old(thread) && ancestor == old(ancestor)
        invariant recorded && ok ==> ChildrenPlaced(v, k, next, prelim, shift, change, old(change))
        invariant Flat(tree) && Unthreaded(old(thread)) ==> ok && Unthreaded(thread)
        decreases |ks| - k
      {
        ChildBounds(v, k);
        ghost var p0, s0, c0 := prelim, shift, change;
        defaultAncestor, ok := WalkChild(v, k, defaultAncestor);
        if recorded && ok {
          ChildPlaced(v, k, p0, s0, c0, prelim, shift, change, old(change));
        }
        next := tree[ks[k]].end;
        k := k + 1;
      }
      if recorded && ok {
        ChildrenAllPlaced(v, prelim, shift, change, old(change));
      }
    }

    /**
     * One round of that forEach: firstWalk(child) and then
     * apportion(child, defaultAncestor), which hands the default ancestor back.
     */
    method WalkChild(v: int, k: int, defaultAncestor: int) returns (r: int, ok: bool)
      requires Valid() && 0 <= v < |tree| && 0 <= k < |Kids(v)| && defaultAncestor == Kids(v)[0]
      requires Fresh(Kids(v)[k], tree[Kids(v)[k]].end) && ThreadsInside(v + 1, Kids(v)[k])
      modifies this`prelim, this`mod, this`change, this`shift, this`thread, this`ancestor
      decreases tree[v].end - v, 0
      ensures Valid() && r == defaultAncestor
      ensures var c := Kids(v)[k];
              forall x :: 0 <= x < |tree| && !(c <= x < tree[c].end) ==>
                prelim[x] == old(prelim[x]) && mod[x] == old(mod[x]) && shift[x] == old(shift[x])
                && thread[x] == old(thread[x]) && ancestor[x] == old(ancestor[x])
      ensures forall x :: 0 <= x < |tree| && !(v < x < tree[Kids(v)[k]].end) ==> change[x] == old(change[x])
      ensures ThreadsInside(v + 1, tree[Kids(v)[k]].end)
      ensures !recorded ==>
                ok && prelim == old(prelim) && mod == old(mod) && change == old(change)
                && shift == old(shift) && thread == old(thread) && ancestor == old(ancestor)
      ensures recorded && ok ==> SpreadIn(prelim, Kids(v)[k], tree[Kids(v)[k]].end)
      ensures recorded && ok && k > 0 ==>
                prelim[Kids(v)[k]] == prelim[Kids(v)[k - 1]] + Distance + shift[Kids(v)[k]]
      ensures recorded && ok ==> SuffixesBelow(Gather(change, Kids(v)), Gather(old(change), Kids(v)))
      ensures Flat(tree) && Unthreaded(old(thread)) ==> ok && Unthreaded(thread)
    {
      var c := Kids(v)[k];
      ChildSlot(v, k);
      r := defaultAncestor;
      ok := FirstWalk(c);
      if ok {
        assert Gather(change, Kids(v)) == Gather(old(change), Kids(v)) by {
          assert forall j :: 0 <= j < |Kids(v)| ==> change[Kids(v)[j]] == old(change[Kids(v)[j]]);
        }
        r, ok := ApportionChild(v, k, defaultAncestor);
      } else {
        ThreadsJoin(v + 1, c, tree[c].end);
      }
    }

    /** apportion(child, defaultAncestor) in that forEach, right after firstWalk(child). */
    method ApportionChild(v: int, k: int, defaultAncestor: int) returns (r: int, ok: bool)
      requires Valid() && 0 <= v < |tree| && 0 <= k < |Kids(v)| && defaultAncestor == Kids(v)[0]
      requires ThreadsInside(v + 1, Kids(v)[k]) && ThreadsInside(Kids(v)[k], tree[Kids(v)[k]].end)
      requires shift[Kids(v)[k]] == 0.0
      requires recorded && k > 0 ==> prelim[Kids(v)[k]] == prelim[Kids(v)[k - 1]] + Distance
      requires recorded ==> SpreadIn(prelim, Kids(v)[k], tree[Kids(v)[k]].end)
      modifies this`prelim, this`mod, this`change, this`shift, this`thread, this`ancestor
      ensures Valid() && r == defaultAncestor
      ensures var c := Kids(v)[k];
              forall x :: 0 <= x < |tree| && !(c <= x < tree[c].end) ==>
                prelim[x] == old(prelim[x]) && mod[x] == old(mod[x]) && shift[x] == old(shift[x])
                && thread[x] == old(thread[x]) && ancestor[x] == old(ancestor[x])
      ensures forall x :: 0 <= x < |tree| && !(v < x <= Kids(v)[k]) ==> change[x] == old(change[x])
      ensures ThreadsInside(v + 1, tree[Kids(v)[k]].end)
      ensures !recorded ==>
                ok && prelim == old(prelim) && mod == old(mod) && change == old(change)
                && shift == old(shift) && thread == old(thread) && ancestor == old(ancestor)
      ensures recorded && ok ==> SpreadIn(prelim, Kids(v)[k], tree[Kids(v)[k]].end)
      ensures recorded && ok && k > 0 ==>
                prelim[Kids(v)[k]] == prelim[Kids(v)[k - 1]] + Distance + shift[Kids(v)[k]]
      ensures recorded && ok ==> SuffixesBelow(Gather(change, Kids(v)), Gather(old(change), Kids(v)))
      ensures Flat(tree) && Unthreaded(old(thread)) ==> ok && Unthreaded(thread)
    {
      var c := Kids(v)[k];
      ChildSlot(v, k);
      ghost var p1 := prelim;
      r, ok := Apportion(c, defaultAncestor);
      if recorded && ok {
        ChildSubtrees(v, k);
        SpreadKept(p1, prelim, c, tree[c].end);
      }
    }

    // -------------------------------------------------------------------------
    // secondWalk

    /**
     * The modifiers secondWalk has added up by the time it reaches `w` from
     * `v`: the sum of `md` over the ancestors of `w` from `v` down to its
     * parent.
     */
    ghost function ModSum(md: seq<real>, v: int, w: int): real
      requires WellFormed(tree) && |md| == |tree| && 0 <= v <= w < |tree| && w < tree[v].end
      decreases w
    {
      if w == v then 0.0
      else
        ParentInside(tree, v, w);
        ModSum(md, v, tree[w].parent) + md[tree[w].parent]
    }

    /** Below a child `c` of `v`, the sum from `v` is the modifier of `v` plus the sum from `c`. */
    lemma {:induction false} ModSumSplit(md: seq<real>, v: int, c: int, w: int)
      requires WellFormed(tree) && |md| == |tree| && 0 <= v < c < |tree| && tree[c].parent == v
      requires c <= w < tree[c].end && w < |tree|
      ensures w < tree[v].end && ModSum(md, v, w) == md[v] + ModSum(md, c, w)
      decreases w
    {
      assert Placed(tree, c);
      assert Placed(tree, v);
      if w > c {
        ParentInside(tree, c, w);
        ModSumSplit(md, v, c, tree[w].parent);
      }
    }

    /** Two children of one parent receive the same modifiers. */
    lemma {:induction false} SiblingModSums(md: seq<real>, v: int, a: int, b: int)
      requires WellFormed(tree) && |md| == |tree| && 0 <= v < a < b < |tree| && b < tree[v].end
      requires tree[a].parent == tree[b].parent
      ensures ModSum(md, v, a) == ModSum(md, v, b)
    {
      ParentInside(tree, v, a);
      ParentInside(tree, v, b);
    }

    /** With no modifiers recorded, none are added. */
    lemma {:induction false} ModSumZero(md: seq<real>, v: int, w: int)
      requires WellFormed(tree) && |md| == |tree| && 0 <= v <= w < |tree| && w < tree[v].end
      requires forall x :: 0 <= x < |md| ==> md[x] == 0.0
      ensures ModSum(md, v, w) == 0.0
      decreases w
    {
      if w > v {
        ParentInside(tree, v, w);
        ModSumZero(md, v, tree[w].parent);
      }
    }

    /**
     * secondWalk(v, m) (graphLayout.ts:135-145): each node of the subtree of
     * `v` gets as `y` its prelim plus `m` plus the modifiers of its
     * ancestors from `v` on; nothing else changes.
     */
    method SecondWalk(v: int, m: real)
      requires Valid() && 0 <= v < |tree|
      modifies this`y
      decreases tree[v].end - v
      ensures Valid()
      ensures forall x :: 0 <= x < |tree| && !(v <= x < tree[v].end) ==> y[x] == old(y[x])
      ensures forall w :: v <= w < tree[v].end && w < |tree| ==> y[w] == prelim[w] + m + ModSum(mod, v, w)
    {
      SubtreeOf(v);
      y := y[v := prelim[v] + m];
      var ks := Kids(v);
      var k := 0;
      ghost var next := v + 1;
      if ks != [] {
        ChildBounds(v, 0);
      }
      while k < |ks|
        invariant 0 <= k <= |ks| && v < next <= tree[v].end && next == if k < |ks| then ks[k] else tree[v].end
        invariant Valid()
        invariant forall x :: 0 <= x < |tree| && !(v <= x < tree[v].end) ==> y[x] == old(y[x])
        invariant forall w :: v <= w < next ==> y[w] == prelim[w] + m + ModSum(mod, v, w)
      {
        ChildBounds(v, k);
        var c := ks[k];
        SecondWalk(c, m + mod[v]);
        forall w | c <= w < tree[c].end
          ensures y[w] == prelim[w] + m + ModSum(mod, v, w)
        {
          ModSumSplit(mod, v, c, w);
        }
        next := tree[c].end;
        k := k + 1;
      }
    }

    // -------------------------------------------------------------------------
    // flattenPositions

    /** The ids of the nodes in [lo, hi). */
    ghost function IdsIn(lo: int, hi: int): set<string> {
      set w | lo <= w < hi && 0 <= w < |tree| :: tree[w].id
    }

    /** One past the last node of the subtree of `v`. */
    function End(v: int): (e: int)
      requires WellFormed(tree) && 0 <= v < |tree|
      ensures v < e <= |tree| && e == tree[v].end
    {
      assert Placed(tree, v);
      tree[v].end
    }

    /** Where flattenPositions places node `w`: x its depth, shifted by `offset`, times 300 and y its `ys` times 150. */
    function FlatPosition(ys: seq<real>, w: int, offset: int): Position
      requires |ys| == |tree| && 0 <= w < |tree|
    {
      Position((offset + tree[w].depth) as real * HorizontalSpacing, ys[w] * VerticalSpacing)
    }

    /** The entries flattenPositions writes for the nodes in [lo, hi), written in that order. */
    ghost function FlatMap(ys: seq<real>, lo: int, hi: int, offset: int): map<string, Position>
      requires |ys| == |tree| && 0 <= lo <= hi <= |tree|
      decreases hi
    {
      if hi == lo then map[] else FlatMap(ys, lo, hi - 1, offset)[tree[hi - 1].id := FlatPosition(ys, hi - 1, offset)]
    }

    /** Writing two consecutive ranges is writing their union. */
    lemma {:induction false} FlatMapJoin(ys: seq<real>, lo: int, mid: int, hi: int, offset: int)
      requires |ys| == |tree| && 0 <= lo <= mid <= hi <= |tree|
      ensures FlatMap(ys, lo, hi, offset) == FlatMap(ys, lo, mid, offset) + FlatMap(ys, mid, hi, offset)
      decreases hi
    {
      if hi > mid {
        FlatMapJoin(ys, lo, mid, hi - 1, offset);
      }
    }

    /** The entries written for [lo, hi) are exactly those under the ids of its nodes. */
    lemma {:induction false} FlatMapKeys(ys: seq<real>, lo: int, hi: int, offset: int)
      requires |ys| == |tree| && 0 <= lo <= hi <= |tree|
      ensures FlatMap(ys, lo, hi, offset).Keys == IdsIn(lo, hi)
      decreases hi
    {
      if hi > lo {
        FlatMapKeys(ys, lo, hi - 1, offset);
        assert IdsIn(lo, hi) == IdsIn(lo, hi - 1) + {tree[hi - 1].id};
      }
    }

    /** With distinct ids, the entry under a node's id is that node's position. */
    lemma {:induction false} FlatMapAt(ys: seq<real>, lo: int, hi: int, offset: int, w: int)
      requires |ys| == |tree| && 0 <= lo <= w < hi <= |tree| && NoDup(Ids(tree))
      ensures tree[w].id in FlatMap(ys, lo, hi, offset)
      ensures FlatMap(ys, lo, hi, offset)[tree[w].id] == FlatPosition(ys, w, offset)
      decreases hi
    {
      if w < hi - 1 {
        assert Ids(tree)[w] != Ids(tree)[hi - 1];
        FlatMapAt(ys, lo, hi - 1, offset, w);
      }
    }

    /**
     * flattenPositions(v, positions, depth) (graphLayout.ts:298-317): every
     * node of the subtree of `v` is entered under its id at x = its depth
     * (counted from `depth` at `v`) times 300 and y = its `y` times 150;
     * entries under other ids are kept.
     */
    method Flatten(v: int, depth: int)
      requires WellFormed(tree) && |y| == |tree| && 0 <= v < |tree|
      modifies this`positions
      decreases tree[v].end - v
      ensures positions == old(positions) + FlatMap(y, v, End(v), depth - tree[v].depth)
    {
      SubtreeOf(v);
      ghost var offset := depth - tree[v].depth;
      positions := positions[tree[v].id := Position(depth as real * HorizontalSpacing, y[v] * VerticalSpacing)];
      assert positions == old(positions) + FlatMap(y, v, v + 1, offset);
      var ks := Kids(v);
      var k := 0;
      ghost var next := v + 1;
      if ks != [] {
        ChildBounds(v, 0);
      }
      while k < |ks|
        invariant 0 <= k <= |ks| && v < next <= End(v) && next == if k < |ks| then ks[k] else End(v)
        invariant positions == old(positions) + FlatMap(y, v, next, offset)
      {
        ChildBounds(v, k);
        var c := ks[k];
        assert tree[c].depth == tree[v].depth + 1 by {
          assert Placed(tree, v);
        }
        ghost var p1 := positions;
        Flatten(c, depth + 1);
        FlatMapJoin(y, v, next, End(c), offset);
        MapUnionAssoc(old(positions), FlatMap(y, v, next, offset), FlatMap(y, c, End(c), offset));
        next := End(c);
        k := k + 1;
      }
    }

    /**
     * What flattenPositions(root, positions) leaves in an empty map: the
     * positions of exactly the nodes of the tree, x their depth times 300,
     * all y 0 when every node's y is, siblings one VerticalSpacing apart when
     * their y values are spread.
     */
    lemma {:induction false} FlatWhole(ys: seq<real>, pos: map<string, Position>)
      requires WellFormed(tree) && |ys| == |tree| && NoDup(Ids(tree))
      requires pos == map[] + FlatMap(ys, 0, |tree|, 0)
      ensures forall id :: id in pos <==> id in Ids(tree)
      ensures forall w :: 0 <= w < |tree| ==>
                tree[w].id in pos && pos[tree[w].id].x == tree[w].depth as real * HorizontalSpacing
      ensures (forall w :: 0 <= w < |tree| ==> ys[w] == 0.0) ==> forall id :: id in pos ==> pos[id].y == 0.0
      ensures SiblingsSpread(ys) ==> SiblingsApart(tree, pos)
    {
      var fm := FlatMap(ys, 0, |tree|, 0);
      assert pos == fm;
      FlatMapKeys(ys, 0, |tree|, 0);
      forall id | id in Ids(tree)
        ensures id in IdsIn(0, |tree|)
      {
        var w :| 0 <= w < |tree| && Ids(tree)[w] == id;
      }
      forall w | 0 <= w < |tree|
        ensures tree[w].id in pos && pos[tree[w].id] == FlatPosition(ys, w, 0)
      {
        FlatMapAt(ys, 0, |tree|, 0, w);
      }
      if forall w :: 0 <= w < |tree| ==> ys[w] == 0.0 {
        forall id | id in pos
          ensures pos[id].y == 0.0
        {
          var w :| 0 <= w < |tree| && tree[w].id == id;
        }
      }
    }

    // -------------------------------------------------------------------------
    // Both walks

    /** In `ys`, every node sits at least `Distance` after its previous sibling. */
    ghost predicate SiblingsSpread(ys: seq<real>)
      requires |ys| == |tree|
    {
      forall a :: 0 < a < |tree| && a < tree[a].end < |tree| && tree[tree[a].end].parent == tree[a].parent ==>
        ys[tree[a].end] - ys[a] >= Distance
    }

    /** Siblings receive the same modifiers, so spread prelims give spread final positions. */
    lemma {:induction false} SpreadSiblings(p: seq<real>, md: seq<real>, ys: seq<real>)
      requires WellFormed(tree) && |p| == |tree| && |md| == |tree| && |ys| == |tree|
      requires SpreadIn(p, 0, |tree|)
      requires forall w :: 0 <= w < |tree| ==> ys[w] == p[w] + ModSum(md, 0, w)
      ensures SiblingsSpread(ys)
    {
      forall a | 0 < a < |tree| && a < tree[a].end < |tree| && tree[tree[a].end].parent == tree[a].parent
        ensures ys[tree[a].end] - ys[a] >= Distance
      {
        var k := NextSibling(tree, a);
        assert Spread(p, tree[a].parent);
        SiblingModSums(md, 0, a, tree[a].end);
      }
    }

    /**
     * firstWalk(treeRoot) and secondWalk(treeRoot, 0, 0) (graphLayout.ts:45-46)
     * on a tree as buildTree made it. Each final y is the node's prelim plus
     * the modifiers of all its ancestors. As written every y is 0; with
     * parents found, every node ends at least one unit after its previous
     * sibling. `ok` is false where apportion would fail.
     */
    method Walk() returns (ok: bool)
      requires Valid() && Fresh(0, |tree|)
      modifies this`prelim, this`mod, this`change, this`shift, this`thread, this`ancestor, this`y
      ensures Valid()
      ensures !recorded ==> ok && forall w :: 0 <= w < |tree| ==> y[w] == 0.0
      ensures ok ==> forall w :: 0 <= w < |tree| ==> y[w] == prelim[w] + ModSum(mod, 0, w)
      ensures recorded && ok ==> SiblingsSpread(y)
      ensures Flat(tree) ==> ok
    {
      ok := FirstWalk(0);
      if ok {
        ghost var p1, m1 := prelim, mod;
        SecondWalk(0, 0.0);
        if recorded {
          SpreadSiblings(prelim, mod, y);
        } else {
          forall w | 0 <= w < |tree|
            ensures y[w] == 0.0
          {
            ModSumZero(mod, 0, w);
          }
        }
      }
    }
  }

  /**
   * In `pos`, every node of the arena `t` is at least one VerticalSpacing
   * below its previous sibling.
   */
  ghost predicate SiblingsApart(t: seq<TreeNode>, pos: map<string, Position>) {
    forall a :: 0 < a < |t| && a < t[a].end < |t| && t[t[a].end].parent == t[a].parent ==>
      t[a].id in pos && t[t[a].end].id in pos && pos[t[t[a].end].id].y - pos[t[a].id].y >= VerticalSpacing
  }

  /**
   * calculateTreeLayout (graphLayout.ts:26-52): no positions for an empty or
   * unknown root; otherwise one position for every node buildTree reaches
   * from the root, at x = its depth times 300. As written (`recorded`
   * false) every y is 0; with parents found, siblings are at least 150
   * apart. None stands for the TypeError apportion throws when a right
   * contour runs out (graphLayout.ts:171-173). That cannot happen as
   * written or on a flat tree; with parents found a deeper tree can reach it.
   */
  method CalculateTreeLayout(nodes: NodeMap, rootId: string, recorded: bool) returns (r: Option<map<string, Position>>)
    requires LayoutShaped(nodes)
    ensures rootId == "" || rootId !in nodes ==> r == Some(map[])
    ensures !recorded ==> r.Some?
    ensures r.Some? ==> forall id :: id in r.value <==> id in Subtree(nodes, rootId)
    ensures r.Some? && rootId in nodes ==>
              var t := BuildTree(nodes, rootId, 0, Null, 0, 0);
              forall w :: 0 <= w < |t| ==> t[w].id in r.value && r.value[t[w].id].x == t[w].depth as real * HorizontalSpacing
    ensures r.Some? && !recorded ==> forall id :: id in r.value ==> r.value[id].y == 0.0
    ensures r.Some? && recorded ==> SiblingsApart(BuildTree(nodes, rootId, 0, Null, 0, 0), r.value)
    ensures rootId in nodes && Flat(BuildTree(nodes, rootId, 0, Null, 0, 0)) ==> r.Some?
  {
    if rootId == "" || rootId !in nodes {
      return Some(map[]);
    }
    var t := BuildTree(nodes, rootId, 0, Null, 0, 0);
    BuildWellFormed(nodes, rootId);
    BuildIds(nodes, rootId, 0, Null, 0, 0);
    SubtreeNoDup(nodes, rootId);
    var layout := new LayoutTree(t, recorded);
    var ok := layout.Walk();
    if !ok {
      return None;
    }
    layout.Flatten(0, 0);
    layout.FlatWhole(layout.y, layout.positions);
    r := Some(layout.positions);
  }

  // ---------------------------------------------------------------------------
  // calculateBoundingBox and centerTree

  /** A JavaScript number as the bounding box holds it: finite, or an infinity it starts from. */
  datatype Extended = NegInfinity | Finite(value: real) | PosInfinity

  /** Math.min(a, b) for a finite `b`. */
  function MinWith(a: Extended, b: real): (r: Extended)
    ensures r.Finite? ==> r.value <= b && (a.Finite? ==> r.value <= a.value)
    ensures a != NegInfinity ==> r.Finite? && (r.value == b || (a.Finite? && r.value == a.value))
    ensures a == NegInfinity ==> r == NegInfinity
  {
    match a
    case NegInfinity => NegInfinity
    case Finite(x) => Finite(if x <= b then x else b)
    case PosInfinity => Finite(b)
  }

  /** Math.max(a, b) for a finite `b`. */
  function MaxWith(a: Extended, b: real): (r: Extended)
    ensures r.Finite? ==> b <= r.value && (a.Finite? ==> a.value <= r.value)
    ensures a != PosInfinity ==> r.Finite? && (r.value == b || (a.Finite? && r.value == a.value))
    ensures a == PosInfinity ==> r == PosInfinity
  {
    match a
    case NegInfinity => Finite(b)
    case Finite(x) => Finite(if x >= b then x else b)
    case PosInfinity => PosInfinity
  }

  datatype BoundingBox = BoundingBox(minX: Extended, minY: Extended, maxX: Extended, maxY: Extended)

  /** One coordinate of a position: x when `horizontal`, otherwise y. */
  function Coord(p: Position, horizontal: bool): real {
    if horizontal then p.x else p.y
  }

  /** `b` is the least coordinate over the entries `seen` of `pos`, or +Infinity when there are none. */
  ghost predicate Lowest(pos: map<string, Position>, seen: set<string>, b: Extended, horizontal: bool)
    requires seen <= pos.Keys
  {
    && (seen == {} ==> b == PosInfinity)
    && (seen != {} ==>
          && b.Finite?
          && (exists id :: id in seen && Coord(pos[id], horizontal) == b.value)
          && (forall id :: id in seen ==> b.value <= Coord(pos[id], horizontal)))
  }

  /** `b` is the greatest coordinate over the entries `seen` of `pos`, or -Infinity when there are none. */
  ghost predicate Highest(pos: map<string, Position>, seen: set<string>, b: Extended, horizontal: bool)
    requires seen <= pos.Keys
  {
    && (seen == {} ==> b == NegInfinity)
    && (seen != {} ==>
          && b.Finite?
          && (exists id :: id in seen && Coord(pos[id], horizontal) == b.value)
          && (forall id :: id in seen ==> Coord(pos[id], horizontal) <= b.value))
  }

  /** `box` bounds the entries `seen` of `pos` in both coordinates. */
  ghost predicate Bounds(pos: map<string, Position>, seen: set<string>, box: BoundingBox)
    requires seen <= pos.Keys
  {
    && Lowest(pos, seen, box.minX, true) && Lowest(pos, seen, box.minY, false)
    && Highest(pos, seen, box.maxX, true) && Highest(pos, seen, box.maxY, false)
  }

  /** Taking one more entry into account keeps the least coordinate least. */
  lemma {:induction false} LowestStep(pos: map<string, Position>, seen: set<string>, b: Extended, horizontal: bool, id: string)
    requires seen <= pos.Keys && id in pos && id !in seen && Lowest(pos, seen, b, horizontal)
    ensures Lowest(pos, seen + {id}, MinWith(b, Coord(pos[id], horizontal)), horizontal)
  {
    var r := MinWith(b, Coord(pos[id], horizontal));
    if r.value != Coord(pos[id], horizontal) {
      var w :| w in seen && Coord(pos[w], horizontal) == b.value;
      assert w in seen + {id};
    }
  }

  lemma {:induction false} HighestStep(pos: map<string, Position>, seen: set<string>, b: Extended, horizontal: bool, id: string)
    requires seen <= pos.Keys && id in pos && id !in seen && Highest(pos, seen, b, horizontal)
    ensures Highest(pos, seen + {id}, MaxWith(b, Coord(pos[id], horizontal)), horizontal)
  {
    var r := MaxWith(b, Coord(pos[id], horizontal));
    if r.value != Coord(pos[id], horizontal) {
      var w :| w in seen && Coord(pos[w], horizontal) == b.value;
      assert w in seen + {id};
    }
  }

  /**
   * calculateBoundingBox (graphLayout.ts:322-338): the least and greatest x
   * and y over all positions, starting from +Infinity and -Infinity.
   */
  method CalculateBoundingBox(positions: map<string, Position>) returns (box: BoundingBox)
    ensures Bounds(positions, positions.Keys, box)
  {
    box := BoundingBox(PosInfinity, PosInfinity, NegInfinity, NegInfinity);
    var rest := positions.Keys;
    while rest != {}
      invariant rest <= positions.Keys
      invariant Bounds(positions, positions.Keys - rest, box)
      decreases |rest|
    {
      var id :| id in rest;
      var pos := positions[id];
      var seen := positions.Keys - rest;
      LowestStep(positions, seen, box.minX, true, id);
      LowestStep(positions, seen, box.minY, false, id);
      HighestStep(positions, seen, box.maxX, true, id);
      HighestStep(positions, seen, box.maxY, false, id);
      box := BoundingBox(MinWith(box.minX, pos.x), MinWith(box.minY, pos.y), MaxWith(box.maxX, pos.x), MaxWith(box.maxY, pos.y));
      rest := rest - {id};
      assert positions.Keys - rest == seen + {id};
    }
  }

  /** Moving every y by the same amount moves its least and greatest value by that amount. */
  lemma {:induction false} ShiftedExtremes(before: map<string, Position>, after: map<string, Position>, lo: real, hi: real, c: real)
    requires after.Keys == before.Keys
    requires forall id :: id in after ==> after[id].y == before[id].y - c
    requires Lowest(before, before.Keys, Finite(lo), false) && Highest(before, before.Keys, Finite(hi), false)
    ensures Lowest(after, after.Keys, Finite(lo - c), false) && Highest(after, after.Keys, Finite(hi - c), false)
  {
    var a :| a in before && Coord(before[a], false) == lo;
    var b :| b in before && Coord(before[b], false) == hi;
    assert Coord(after[a], false) == lo - c;
    assert Coord(after[b], false) == hi - c;
  }

  /**
   * centerTree (graphLayout.ts:343-353): every y moves by the midpoint of
   * the least and greatest y, so afterwards the least y is minus the
   * greatest; ids and x are kept.
   */
  method CenterTree(positions: map<string, Position>) returns (r: map<string, Position>)
    ensures r.Keys == positions.Keys
    ensures forall id :: id in r ==> r[id].x == positions[id].x
    ensures forall a, b :: a in r && b in r ==> r[a].y - r[b].y == positions[a].y - positions[b].y
    ensures positions != map[] ==>
              exists h :: Lowest(r, r.Keys, Finite(-h), false) && Highest(r, r.Keys, Finite(h), false)
    ensures positions == map[] ==> r == positions
  {
    var bbox := CalculateBoundingBox(positions);
    r := positions;
    var rest := positions.Keys;
    while rest != {}
      invariant rest <= positions.Keys && r.Keys == positions.Keys
      invariant forall id :: id in rest ==> r[id] == positions[id]
      invariant forall id :: id in r && id !in rest ==>
                  r[id] == Position(positions[id].x, positions[id].y - (bbox.minY.value + bbox.maxY.value) / 2.0)
      decreases |rest|
    {
      var id :| id in rest;
      var pos := r[id];
      var centerY := (bbox.minY.value + bbox.maxY.value) / 2.0;
      r := r[id := Position(pos.x, pos.y - centerY)];
      rest := rest - {id};
    }
    if positions != map[] {
      var centerY := (bbox.minY.value + bbox.maxY.value) / 2.0;
      assert forall id :: id in r ==> r[id].y == positions[id].y - centerY;
      ShiftedExtremes(positions, r, bbox.minY.value, bbox.maxY.value, centerY);
      assert Lowest(r, r.Keys, Finite(-(bbox.maxY.value - centerY)), false);
    }
  }
}
