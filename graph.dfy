/**
 * The conversation tree of frontend/app/types/graph.ts: chat nodes kept in a
 * map from id to node, the queries over it (path to a node, depth,
 * descendants, leaves), node construction and the serialise/deserialise pair.
 *
 * The source's queries are walks that terminate only when the parent chains
 * are acyclic. `Acyclic` states that as "following parentId from any node
 * stops within |nodes| steps", and `TreeShaped` adds the children/parent
 * consistency the rest of the frontend keeps.
 */
module Graph {
  import opened Wrappers

  datatype Role = User | Assistant

  datatype Message = Message(role: Role, content: string)

  /** Layout coordinates; exact rationals stand in for JavaScript numbers. */
  datatype Position = Position(x: real, y: real)

  datatype ChatNode = ChatNode(
    id: string,
    parentId: Option<string>,
    messages: seq<Message>,
    position: Position,
    userQuestion: string,
    slotId: Option<int>,
    children: seq<string>,
    isFrozen: bool,
    isActivated: bool)

  /** A JavaScript `Map<string, ChatNode>`; its iteration order is not modelled. */
  type NodeMap = map<string, ChatNode>

  datatype GraphState = GraphState(nodes: NodeMap, activeNodeId: Option<string>, rootNodeId: Option<string>)

  predicate NoDup<T(==)>(s: seq<T>) {
    forall i, j :: 0 <= i < j < |s| ==> s[i] != s[j]
  }

  lemma {:induction false} NoDupConcat<T>(a: seq<T>, b: seq<T>)
    requires NoDup(a) && NoDup(b)
    requires forall x :: x in a ==> x !in b
    ensures NoDup(a + b)
  {
    forall i, j | 0 <= i < j < |a + b| ensures (a + b)[i] != (a + b)[j] {
      if j >= |a| && i < |a| {
        assert (a + b)[i] in a && (a + b)[j] in b;
      }
    }
  }

  // ---------------------------------------------------------------------------
  // Node construction

  /** `createNode`: a fresh node with no children, not frozen, at the origin. */
  function CreateNode(id: string, parentId: Option<string>, userQuestion: string,
                      messages: seq<Message> := [], slotId: Option<int> := None,
                      isActivated: bool := true): (n: ChatNode)
    ensures n.id == id && n.parentId == parentId && n.userQuestion == userQuestion
    ensures n.messages == messages && n.slotId == slotId && n.isActivated == isActivated
    ensures n.children == [] && !n.isFrozen && n.position == Position(0.0, 0.0)
  {
    ChatNode(id, parentId, messages, Position(0.0, 0.0), userQuestion, slotId, [], false, isActivated)
  }

  // ---------------------------------------------------------------------------
  // Parent chains

  /**
   * One step of the walks in getPathToNode/getNodeDepth:
   * `nodes.get(id)?.parentId || null`. An absent node, a null parent and an
   * empty-string parent all end the walk.
   */
  function ParentStep(nodes: NodeMap, id: string): (r: Option<string>)
    ensures r.Some? <==> id in nodes && nodes[id].parentId.Some? && nodes[id].parentId.value != ""
    ensures r.Some? ==> r == nodes[id].parentId
  {
    if id in nodes && nodes[id].parentId.Some? && nodes[id].parentId.value != "" then nodes[id].parentId
    else None
  }

  /** The walk from `id` ends after at most `fuel` parent steps. */
  predicate StopsWithin(nodes: NodeMap, id: string, fuel: nat)
    decreases fuel
  {
    match ParentStep(nodes, id)
    case None => true
    case Some(p) => fuel > 0 && StopsWithin(nodes, p, fuel - 1)
  }

  /** No parent chain cycles: from every node the walk ends within |nodes| steps. */
  ghost predicate Acyclic(nodes: NodeMap) {
    forall id :: id in nodes ==> StopsWithin(nodes, id, |nodes|)
  }

  /** The ids met on the walk from `id`, outermost first (getPathToNode's `unshift` order). */
  function PathTo(nodes: NodeMap, id: string, fuel: nat): (path: seq<string>)
    requires StopsWithin(nodes, id, fuel)
    ensures 1 <= |path| <= fuel + 1 && path[|path| - 1] == id
    decreases fuel
  {
    match ParentStep(nodes, id)
    case None => [id]
    case Some(p) => PathTo(nodes, p, fuel - 1) + [id]
  }

  lemma {:induction false} MoreFuel(nodes: NodeMap, id: string, fuel: nat, more: nat)
    requires StopsWithin(nodes, id, fuel) && fuel <= more
    ensures StopsWithin(nodes, id, more) && PathTo(nodes, id, more) == PathTo(nodes, id, fuel)
    decreases fuel
  {
    match ParentStep(nodes, id)
    case None =>
    case Some(p) => MoreFuel(nodes, p, fuel - 1, more - 1);
  }

  /** The reference meaning of getPathToNode. */
  ghost function PathToNode(nodes: NodeMap, id: string): (path: seq<string>)
    requires Acyclic(nodes)
    ensures 1 <= |path| <= |nodes| + 1 && path[|path| - 1] == id
  {
    PathTo(nodes, id, |nodes|)
  }

  /** A walk that takes a step is the parent's walk followed by the node. */
  lemma {:induction false} PathStep(nodes: NodeMap, id: string, p: string)
    requires Acyclic(nodes) && ParentStep(nodes, id) == Some(p)
    ensures PathToNode(nodes, id) == PathToNode(nodes, p) + [id]
  {
    assert StopsWithin(nodes, id, |nodes|);
    MoreFuel(nodes, p, |nodes| - 1, |nodes|);
  }

  lemma {:induction false} PathStop(nodes: NodeMap, id: string)
    requires Acyclic(nodes) && ParentStep(nodes, id) == None
    ensures PathToNode(nodes, id) == [id]
  {
  }

  lemma {:induction false} PathToLinks(nodes: NodeMap, id: string, fuel: nat)
    requires StopsWithin(nodes, id, fuel)
    ensures var path := PathTo(nodes, id, fuel);
      ParentStep(nodes, path[0]) == None &&
      forall i :: 0 <= i < |path| - 1 ==> ParentStep(nodes, path[i + 1]) == Some(path[i])
    decreases fuel
  {
    match ParentStep(nodes, id)
    case None =>
    case Some(p) =>
      PathToLinks(nodes, p, fuel - 1);
      var prev := PathTo(nodes, p, fuel - 1);
      var path := PathTo(nodes, id, fuel);
      assert path == prev + [id];
      forall i | 0 <= i < |path| - 1 ensures ParentStep(nodes, path[i + 1]) == Some(path[i]) {
        if i + 1 == |path| - 1 {
          assert path[i + 1] == id && path[i] == p;
        } else {
          assert path[i + 1] == prev[i + 1] && path[i] == prev[i];
        }
      }
  }

  /**
   * getPathToNode's promise: the path ends with `id`, each element is the
   * parent of the next, and it starts where the walk stops.
   */
  lemma {:induction false} PathLinks(nodes: NodeMap, id: string)
    requires Acyclic(nodes)
    ensures var path := PathToNode(nodes, id);
      path[|path| - 1] == id &&
      ParentStep(nodes, path[0]) == None &&
      forall i :: 0 <= i < |path| - 1 ==> ParentStep(nodes, path[i + 1]) == Some(path[i])
  {
    PathToLinks(nodes, id, |nodes|);
  }

  /** Every prefix of a path is the path of its last element. */
  lemma {:induction false} PathPrefix(nodes: NodeMap, x: string, k: nat)
    requires Acyclic(nodes) && k < |PathToNode(nodes, x)|
    ensures PathToNode(nodes, PathToNode(nodes, x)[k]) == PathToNode(nodes, x)[..k + 1]
    decreases |PathToNode(nodes, x)|
  {
    var path := PathToNode(nodes, x);
    if k == |path| - 1 {
      assert path[..k + 1] == path;
    } else {
      match ParentStep(nodes, x)
      case None =>
        PathStop(nodes, x);
      case Some(p) =>
        PathStep(nodes, x, p);
        assert path[k] == PathToNode(nodes, p)[k];
        PathPrefix(nodes, p, k);
        assert path[..k + 1] == PathToNode(nodes, p)[..k + 1];
    }
  }

  /** getPathToNode (graph.ts:45-56): the loop with `unshift`, proved to build PathToNode. */
  method GetPathToNode(nodeId: string, nodes: NodeMap) returns (path: seq<string>)
    requires Acyclic(nodes)
    ensures path == PathToNode(nodes, nodeId)
  {
    path := [];
    var currentId: Option<string> := Some(nodeId);
    ghost var fuel: nat := |nodes|;
    assert StopsWithin(nodes, nodeId, fuel);
    while currentId.Some?
      invariant currentId.Some? ==> StopsWithin(nodes, currentId.value, fuel)
      invariant currentId.Some? ==> PathTo(nodes, currentId.value, fuel) + path == PathToNode(nodes, nodeId)
      invariant currentId.None? ==> path == PathToNode(nodes, nodeId)
      decreases if currentId.Some? then fuel + 1 else 0
    {
      var here := currentId.value;
      path := [here] + path;
      currentId := ParentStep(nodes, here);
      if currentId.Some? {
        assert PathTo(nodes, here, fuel) == PathTo(nodes, currentId.value, fuel - 1) + [here];
        fuel := fuel - 1;
      }
    }
  }

  /** getNodeDepth (graph.ts:72-83): counts the parent steps taken. */
  method GetNodeDepth(nodeId: string, nodes: NodeMap) returns (depth: nat)
    requires Acyclic(nodes)
    ensures depth == |PathToNode(nodes, nodeId)| - 1
  {
    depth := 0;
    var currentId: Option<string> := Some(nodeId);
    ghost var fuel: nat := |nodes|;
    assert StopsWithin(nodes, nodeId, fuel);
    while currentId.Some?
      invariant currentId.Some? ==> StopsWithin(nodes, currentId.value, fuel)
      invariant currentId.Some? ==> depth + |PathTo(nodes, currentId.value, fuel)| == |PathToNode(nodes, nodeId)|
      invariant currentId.None? ==> depth + 1 == |PathToNode(nodes, nodeId)|
      decreases if currentId.Some? then fuel + 1 else 0
    {
      var here := currentId.value;
      currentId := ParentStep(nodes, here);
      if currentId.Some? {
        assert PathTo(nodes, here, fuel) == PathTo(nodes, currentId.value, fuel - 1) + [here];
        fuel := fuel - 1;
        depth := depth + 1;
      }
    }
  }

  // ---------------------------------------------------------------------------
  // Tree invariants

  /** A child that is present names its parent: `c in p.children ==> nodes[c].parentId == p`. */
  ghost predicate ChildrenPointBack(nodes: NodeMap) {
    forall p, c :: p in nodes && c in nodes[p].children && c in nodes ==> nodes[c].parentId == Some(p)
  }

  ghost predicate DistinctChildren(nodes: NodeMap) {
    forall p :: p in nodes ==> NoDup(nodes[p].children)
  }

  /** What the recursive walks over `children` (getDescendants, buildTree) need in order to terminate. */
  ghost predicate LayoutShaped(nodes: NodeMap) {
    Acyclic(nodes) && "" !in nodes && ChildrenPointBack(nodes) && DistinctChildren(nodes)
  }

  /**
   * The single-rooted-tree invariant: keys are the nodes' ids, every listed
   * child exists, and `c in p.children <==> nodes[c].parentId == p` with
   * parents present.
   */
  ghost predicate TreeShaped(nodes: NodeMap) {
    && LayoutShaped(nodes)
    && (forall k :: k in nodes ==> nodes[k].id == k)
    && (forall p, c :: p in nodes && c in nodes[p].children ==> c in nodes)
    && (forall c :: c in nodes && nodes[c].parentId.Some? ==>
          nodes[c].parentId.value in nodes && c in nodes[nodes[c].parentId.value].children)
  }

  /** The graph invariant: a tree whose only parentless node is the root. */
  ghost predicate ValidGraph(g: GraphState) {
    && TreeShaped(g.nodes)
    && (g.rootNodeId.Some? ==> g.rootNodeId.value in g.nodes)
    && (g.nodes != map[] ==> g.rootNodeId.Some?)
    && (forall id :: id in g.nodes ==> (g.nodes[id].parentId.None? <==> g.rootNodeId == Some(id)))
  }

  /** On a tree, every element of a node's path is a node. */
  lemma {:induction false} PathInNodes(nodes: NodeMap, x: string)
    requires TreeShaped(nodes) && x in nodes
    ensures forall y :: y in PathToNode(nodes, x) ==> y in nodes
    decreases |PathToNode(nodes, x)|
  {
    match ParentStep(nodes, x)
    case None =>
      PathStop(nodes, x);
    case Some(p) =>
      PathStep(nodes, x, p);
      PathInNodes(nodes, p);
  }

  /** Single rooted: in a valid graph the walk from any node ends at the root. */
  lemma {:induction false} PathsStartAtRoot(g: GraphState, x: string)
    requires ValidGraph(g) && x in g.nodes
    ensures PathToNode(g.nodes, x)[0] == g.rootNodeId.value
  {
    var path := PathToNode(g.nodes, x);
    PathLinks(g.nodes, x);
    PathInNodes(g.nodes, x);
    assert path[0] in path;
    assert g.nodes[path[0]].parentId.None?;
  }

  /** Rank for the recursive walks down `children`: a child ranks strictly below its parent. */
  ghost function Rank(nodes: NodeMap, id: string): nat
    requires Acyclic(nodes)
  {
    if id in nodes then |nodes| + 2 - |PathToNode(nodes, id)| else 0
  }

  lemma {:induction false} ChildRank(nodes: NodeMap, p: string, c: string)
    requires LayoutShaped(nodes) && p in nodes && c in nodes[p].children
    ensures Rank(nodes, c) < Rank(nodes, p)
    ensures c in nodes ==> ParentStep(nodes, c) == Some(p) && PathToNode(nodes, c) == PathToNode(nodes, p) + [c]
  {
    if c in nodes {
      assert ParentStep(nodes, c) == Some(p);
      PathStep(nodes, c, p);
    }
  }

  // ---------------------------------------------------------------------------
  // Descendants

  /** The reference meaning of getDescendants: each child, then its own descendants, in order. */
  ghost function Descendants(nodes: NodeMap, id: string): seq<string>
    requires LayoutShaped(nodes)
    decreases Rank(nodes, id), 1
  {
    if id !in nodes then [] else DescendantsFrom(nodes, id, 0)
  }

  ghost function DescendantsFrom(nodes: NodeMap, id: string, i: nat): seq<string>
    requires LayoutShaped(nodes) && id in nodes && i <= |nodes[id].children|
    decreases Rank(nodes, id), 0, |nodes[id].children| - i
  {
    var children := nodes[id].children;
    if i == |children| then []
    else
      ChildRank(nodes, id, children[i]);
      [children[i]] + Descendants(nodes, children[i]) + DescendantsFrom(nodes, id, i + 1)
  }

  /** getDescendants (graph.ts:30-42): recursion inside a loop that pushes into a local array. */
  method GetDescendants(nodeId: string, nodes: NodeMap) returns (descendants: seq<string>)
    requires LayoutShaped(nodes)
    ensures descendants == Descendants(nodes, nodeId)
    decreases Rank(nodes, nodeId)
  {
    descendants := [];
    if nodeId !in nodes {
      return;
    }
    var node := nodes[nodeId];
    for i := 0 to |node.children|
      invariant descendants + DescendantsFrom(nodes, nodeId, i) == DescendantsFrom(nodes, nodeId, 0)
    {
      var childId := node.children[i];
      ChildRank(nodes, nodeId, childId);
      var below := GetDescendants(childId, nodes);
      DescendantsFromStep(nodes, nodeId, i);
      descendants := descendants + ([childId] + below);
    }
  }

  /** One child of the forEach: itself, its descendants, then the later children's. */
  lemma {:induction false} DescendantsFromStep(nodes: NodeMap, id: string, i: nat)
    requires LayoutShaped(nodes) && id in nodes && i < |nodes[id].children|
    ensures var c := nodes[id].children[i];
            DescendantsFrom(nodes, id, i) == ([c] + Descendants(nodes, c)) + DescendantsFrom(nodes, id, i + 1)
  {
    var c := nodes[id].children[i];
    ChildRank(nodes, id, c);
    assert [c] + Descendants(nodes, c) + DescendantsFrom(nodes, id, i + 1)
        == ([c] + Descendants(nodes, c)) + DescendantsFrom(nodes, id, i + 1);
  }

  // ---------------------------------------------------------------------------
  // Subtrees through present children (what buildTree reaches)

  /** The ids buildTree visits from `id`, in pre-order; absent children are skipped with their subtrees. */
  ghost function Subtree(nodes: NodeMap, id: string): seq<string>
    requires LayoutShaped(nodes)
    decreases Rank(nodes, id), 1
  {
    if id !in nodes then [] else [id] + SubtreeFrom(nodes, id, 0)
  }

  ghost function SubtreeFrom(nodes: NodeMap, id: string, i: nat): seq<string>
    requires LayoutShaped(nodes) && id in nodes && i <= |nodes[id].children|
    decreases Rank(nodes, id), 0, |nodes[id].children| - i
  {
    var children := nodes[id].children;
    if i == |children| then []
    else
      ChildRank(nodes, id, children[i]);
      Subtree(nodes, children[i]) + SubtreeFrom(nodes, id, i + 1)
  }

  /** Everything reached from `id` is a node whose path passes through `id`. */
  lemma {:induction false} SubtreeMembers(nodes: NodeMap, id: string, x: string)
    requires LayoutShaped(nodes) && x in Subtree(nodes, id)
    ensures x in nodes && PathToNode(nodes, id) <= PathToNode(nodes, x)
    decreases Rank(nodes, id), 1
  {
    if x != id {
      SubtreeFromMembers(nodes, id, 0, x);
    }
  }

  lemma {:induction false} SubtreeFromMembers(nodes: NodeMap, id: string, i: nat, x: string)
    requires LayoutShaped(nodes) && id in nodes && i <= |nodes[id].children|
    requires x in SubtreeFrom(nodes, id, i)
    ensures x in nodes
    ensures exists j :: (i <= j < |nodes[id].children| && nodes[id].children[j] in nodes &&
                         PathToNode(nodes, id) + [nodes[id].children[j]] <= PathToNode(nodes, x))
    decreases Rank(nodes, id), 0, |nodes[id].children| - i
  {
    var children := nodes[id].children;
    ChildRank(nodes, id, children[i]);
    if x in Subtree(nodes, children[i]) {
      SubtreeMembers(nodes, children[i], x);
      assert children[i] in nodes;
    } else {
      SubtreeFromMembers(nodes, id, i + 1, x);
    }
  }

  /** Under the layout invariant nothing is reached twice. */
  lemma {:induction false} SubtreeNoDup(nodes: NodeMap, id: string)
    requires LayoutShaped(nodes)
    ensures NoDup(Subtree(nodes, id))
    decreases Rank(nodes, id), 1
  {
    if id in nodes {
      SubtreeFromNoDup(nodes, id, 0);
      forall x | x in SubtreeFrom(nodes, id, 0) ensures x != id {
        SubtreeFromMembers(nodes, id, 0, x);
      }
      NoDupConcat([id], SubtreeFrom(nodes, id, 0));
    }
  }

  lemma {:induction false} SubtreeFromNoDup(nodes: NodeMap, id: string, i: nat)
    requires LayoutShaped(nodes) && id in nodes && i <= |nodes[id].children|
    ensures NoDup(SubtreeFrom(nodes, id, i))
    decreases Rank(nodes, id), 0, |nodes[id].children| - i
  {
    var children := nodes[id].children;
    if i < |children| {
      var c := children[i];
      ChildRank(nodes, id, c);
      SubtreeNoDup(nodes, c);
      SubtreeFromNoDup(nodes, id, i + 1);
      var k := |PathToNode(nodes, id)|;
      forall x | x in Subtree(nodes, c) ensures x !in SubtreeFrom(nodes, id, i + 1) {
        SubtreeMembers(nodes, c, x);
        assert PathToNode(nodes, x)[k] == c;
        if x in SubtreeFrom(nodes, id, i + 1) {
          SubtreeFromMembers(nodes, id, i + 1, x);
        }
      }
      NoDupConcat(Subtree(nodes, c), SubtreeFrom(nodes, id, i + 1));
    }
  }

  /** On a tree, the reached subtree is the node followed by getDescendants' list. */
  lemma {:induction false} SubtreeIsDescendants(nodes: NodeMap, id: string)
    requires TreeShaped(nodes) && id in nodes
    ensures Subtree(nodes, id) == [id] + Descendants(nodes, id)
    decreases Rank(nodes, id), 1
  {
    SubtreeFromIsDescendantsFrom(nodes, id, 0);
  }

  lemma {:induction false} SubtreeFromIsDescendantsFrom(nodes: NodeMap, id: string, i: nat)
    requires TreeShaped(nodes) && id in nodes && i <= |nodes[id].children|
    ensures SubtreeFrom(nodes, id, i) == DescendantsFrom(nodes, id, i)
    decreases Rank(nodes, id), 0, |nodes[id].children| - i
  {
    var children := nodes[id].children;
    if i < |children| {
      var c := children[i];
      ChildRank(nodes, id, c);
      assert c in nodes;
      SubtreeIsDescendants(nodes, c);
      SubtreeFromIsDescendantsFrom(nodes, id, i + 1);
    }
  }

  /** Under the tree invariant getDescendants has no duplicates and excludes the start node. */
  lemma {:induction false} DescendantsNoDup(nodes: NodeMap, id: string)
    requires TreeShaped(nodes)
    ensures NoDup(Descendants(nodes, id)) && id !in Descendants(nodes, id)
  {
    if id in nodes {
      SubtreeNoDup(nodes, id);
      SubtreeIsDescendants(nodes, id);
      NoDupCons(id, Descendants(nodes, id));
    }
  }

  /** A duplicate-free sequence after its head is duplicate-free and lacks the head. */
  lemma {:induction false} NoDupCons<T>(x: T, rest: seq<T>)
    requires NoDup([x] + rest)
    ensures NoDup(rest) && x !in rest
  {
    var s := [x] + rest;
    forall i, j | 0 <= i < j < |rest| ensures rest[i] != rest[j] {
      assert s[i + 1] == rest[i] && s[j + 1] == rest[j];
    }
    forall k | 0 <= k < |rest| ensures rest[k] != x {
      assert s[k + 1] == rest[k] && s[0] == x;
    }
  }

  lemma {:induction false} SubtreeFromContains(nodes: NodeMap, id: string, i: nat, j: nat, x: string)
    requires LayoutShaped(nodes) && id in nodes && i <= j < |nodes[id].children|
    requires x in Subtree(nodes, nodes[id].children[j])
    ensures x in SubtreeFrom(nodes, id, i)
    decreases j - i
  {
    ChildRank(nodes, id, nodes[id].children[i]);
    if i < j {
      SubtreeFromContains(nodes, id, i + 1, j, x);
    }
  }

  /** A node whose path runs through `id` is reached from `id`. */
  lemma {:induction false} InSubtree(nodes: NodeMap, id: string, x: string)
    requires TreeShaped(nodes) && x in nodes && PathToNode(nodes, id) <= PathToNode(nodes, x)
    ensures x in Subtree(nodes, id)
    decreases |PathToNode(nodes, x)| - |PathToNode(nodes, id)|
  {
    var px := PathToNode(nodes, x);
    var k := |PathToNode(nodes, id)|;
    PathInNodes(nodes, x);
    if k == |px| {
      assert px == PathToNode(nodes, id);
      assert id == x;
    } else {
      var c := NextOnPath(nodes, id, x);
      var j :| 0 <= j < |nodes[id].children| && nodes[id].children[j] == c;
      InSubtree(nodes, c, x);
      SubtreeFromContains(nodes, id, 0, j, x);
    }
  }

  /** Below a node on the way to `x`, the next node of the path is one of its children. */
  lemma {:induction false} NextOnPath(nodes: NodeMap, id: string, x: string) returns (c: string)
    requires TreeShaped(nodes) && x in nodes && PathToNode(nodes, id) <= PathToNode(nodes, x)
    requires |PathToNode(nodes, id)| < |PathToNode(nodes, x)|
    ensures id in nodes && c in nodes[id].children
    ensures PathToNode(nodes, c) <= PathToNode(nodes, x) && |PathToNode(nodes, c)| == |PathToNode(nodes, id)| + 1
  {
    var px := PathToNode(nodes, x);
    var k := |PathToNode(nodes, id)|;
    PathInNodes(nodes, x);
    assert px[k - 1] == id;
    assert id in nodes;
    c := px[k];
    PathPrefix(nodes, x, k);
    assert px[..k + 1] == PathToNode(nodes, id) + [c];
    var pc := PathToNode(nodes, c);
    PathLinks(nodes, c);
    assert pc[|pc| - 2] == id;
    assert ParentStep(nodes, c) == Some(id);
  }

  /**
   * The reference definition of getDescendants on a tree: exactly the nodes
   * other than `id` whose path to the root passes through `id`.
   */
  lemma {:induction false} DescendantsExactly(nodes: NodeMap, id: string, x: string)
    requires TreeShaped(nodes)
    ensures x in Descendants(nodes, id) <==> x in nodes && x != id && id in PathToNode(nodes, x)
  {
    DescendantsNoDup(nodes, id);
    if x in Descendants(nodes, id) {
      SubtreeIsDescendants(nodes, id);
      assert x in Subtree(nodes, id);
      SubtreeMembers(nodes, id, x);
      assert PathToNode(nodes, id)[|PathToNode(nodes, id)| - 1] == id;
      assert PathToNode(nodes, x)[|PathToNode(nodes, id)| - 1] == id;
    }
    if x in nodes && x != id && id in PathToNode(nodes, x) {
      var k :| 0 <= k < |PathToNode(nodes, x)| && PathToNode(nodes, x)[k] == id;
      PathPrefix(nodes, x, k);
      PathInNodes(nodes, x);
      assert PathToNode(nodes, id) <= PathToNode(nodes, x);
      InSubtree(nodes, id, x);
      SubtreeIsDescendants(nodes, id);
    }
  }

  // ---------------------------------------------------------------------------
  // Leaves

  /** getLeafNodes (graph.ts:59-69): visits every entry once and keeps those without children. */
  method GetLeafNodes(nodes: NodeMap) returns (leafNodes: seq<string>)
    ensures forall id :: id in leafNodes <==> id in nodes && nodes[id].children == []
    ensures NoDup(leafNodes)
  {
    leafNodes := [];
    var remaining := nodes.Keys;
    while remaining != {}
      invariant remaining <= nodes.Keys
      invariant forall id :: id in leafNodes <==> id in nodes && id !in remaining && nodes[id].children == []
      invariant NoDup(leafNodes)
      decreases remaining
    {
      var id :| id in remaining;
      if |nodes[id].children| == 0 {
        NoDupConcat(leafNodes, [id]);
        leafNodes := leafNodes + [id];
      }
      remaining := remaining - {id};
    }
  }

  // ---------------------------------------------------------------------------
  // Serialisation

  /** The plain object serializeGraphState returns: `nodes` is `Array.from(map.entries())`. */
  datatype SerializedGraph = SerializedGraph(
    nodes: seq<(string, ChatNode)>, activeNodeId: Option<string>, rootNodeId: Option<string>)

  /** `new Map(entries)`: later entries overwrite earlier ones with the same key. */
  function MapFromEntries(entries: seq<(string, ChatNode)>): (m: NodeMap)
    ensures forall k :: k in m <==> exists i :: 0 <= i < |entries| && entries[i].0 == k
  {
    if entries == [] then map[]
    else
      var m := MapFromEntries(entries[..|entries| - 1]);
      var last := entries[|entries| - 1];
      assert forall i :: 0 <= i < |entries| - 1 ==> entries[..|entries| - 1][i] == entries[i];
      m[last.0 := last.1]
  }

  /** deserializeGraphState (graph.ts:117-123). */
  function DeserializeGraphState(data: SerializedGraph): GraphState {
    GraphState(MapFromEntries(data.nodes), data.activeNodeId, data.rootNodeId)
  }

  /** The entries listed so far are exactly the nodes no longer remaining. */
  ghost predicate EnumeratedSoFar(nodes: NodeMap, entries: seq<(string, ChatNode)>, remaining: set<string>) {
    && remaining <= nodes.Keys
    && MapFromEntries(entries) == (map k | k in nodes && k !in remaining :: nodes[k])
    && |entries| + |remaining| == |nodes|
    && (forall i :: 0 <= i < |entries| ==>
          entries[i].0 in nodes && entries[i].0 !in remaining && nodes[entries[i].0] == entries[i].1)
  }

  /** Listing one more remaining node keeps the enumeration invariant. */
  lemma {:induction false} EnumerateStep(nodes: NodeMap, entries: seq<(string, ChatNode)>, remaining: set<string>,
                                         k: string)
    requires EnumeratedSoFar(nodes, entries, remaining) && k in remaining
    ensures EnumeratedSoFar(nodes, entries + [(k, nodes[k])], remaining - {k})
  {
    var more := entries + [(k, nodes[k])];
    assert more[..|more| - 1] == entries;
    assert MapFromEntries(more) == MapFromEntries(entries)[k := nodes[k]];
    assert (map x | x in nodes && x !in remaining - {k} :: nodes[x])
        == (map x | x in nodes && x !in remaining :: nodes[x])[k := nodes[k]];
    assert |remaining - {k}| == |remaining| - 1;
  }

  /**
   * serializeGraphState (graph.ts:108-114). Enumerating the map's entries is a
   * loop; deserialising what it returns gives back the same state.
   */
  method SerializeGraphState(state: GraphState) returns (data: SerializedGraph)
    ensures DeserializeGraphState(data) == state
    ensures |data.nodes| == |state.nodes|
    ensures forall i :: 0 <= i < |data.nodes| ==>
      data.nodes[i].0 in state.nodes && state.nodes[data.nodes[i].0] == data.nodes[i].1
  {
    var entries: seq<(string, ChatNode)> := [];
    var remaining := state.nodes.Keys;
    assert (map k | k in state.nodes && k !in remaining :: state.nodes[k]) == map[];
    while remaining != {}
      invariant EnumeratedSoFar(state.nodes, entries, remaining)
      decreases remaining
    {
      var k :| k in remaining;
      EnumerateStep(state.nodes, entries, remaining, k);
      entries := entries + [(k, state.nodes[k])];
      remaining := remaining - {k};
    }
    assert MapFromEntries(entries) == state.nodes by {
      assert (map k | k in state.nodes && k !in remaining :: state.nodes[k]) == state.nodes;
    }
    data := SerializedGraph(entries, state.activeNodeId, state.rootNodeId);
  }
}
