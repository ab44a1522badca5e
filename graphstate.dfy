/**
 * The graph state holder of frontend/app/hooks/useGraphState.ts: the
 * initial empty graph, the mount effect that creates the root node, the
 * layout effect that writes computed positions back into the nodes, and the
 * `activeNode` lookup.
 *
 * React runs the layout effect after a render in which the node count or
 * the root id changed; `Retriggers` states that condition and
 * `SetGraphState` applies it. Each effect run is one atomic step.
 */
module GraphStore {
  import opened Wrappers
  import opened Graph
  import opened Arena
  import opened Layout

  /** The state the hook starts from: no nodes, no active node, no root. */
  const InitialState := GraphState(map[], None, None)

  /** The node the mount effect creates. */
  function RootNode(): (n: ChatNode)
    ensures n.id == "root" && n.parentId == None && n.userQuestion == "Start conversation"
    ensures n.messages == [] && n.slotId == None && !n.isActivated
    ensures n.children == [] && !n.isFrozen && n.position == Position(0.0, 0.0)
  {
    CreateNode("root", None, "Start conversation", [], None, false)
  }

  /** The graph the mount effect assigns when it finds no nodes. */
  const RootGraph := GraphState(map["root" := RootNode()], Some("root"), Some("root"))

  /** The mount effect's outcome: the root graph on an empty map, no change otherwise. */
  function Initialized(g: GraphState): (r: GraphState)
    ensures r.nodes != map[]
    ensures g.nodes == map[] ==> r.nodes.Keys == {"root"} && r.activeNodeId == r.rootNodeId == Some("root")
    ensures g.nodes != map[] ==> r == g
  {
    if |g.nodes| == 0 then RootGraph else g
  }

  /** The graph right after mounting is a valid single-node tree whose root is active. */
  lemma {:induction false} InitialGraphValid()
    ensures Initialized(InitialState) == RootGraph
    ensures ValidGraph(RootGraph)
    ensures RootGraph.nodes["root"] == RootNode()
  {
    var nodes := RootGraph.nodes;
    assert nodes.Keys == {"root"};
    assert StopsWithin(nodes, "root", 1) by {
      assert ParentStep(nodes, "root") == None;
    }
    forall id | id in nodes ensures StopsWithin(nodes, id, |nodes|) {
      assert id == "root";
    }
  }

  /** Running the mount step again changes nothing. */
  lemma {:induction false} InitializedIdempotent(g: GraphState)
    ensures Initialized(Initialized(g)) == Initialized(g)
  {
  }

  /** `graphState.rootNodeId && graphState.nodes.size > 0`: a null or empty root id is falsy. */
  predicate LayoutRuns(g: GraphState) {
    g.rootNodeId.Some? && g.rootNodeId.value != "" && |g.nodes| > 0
  }

  /** The layout effect's dependency list: the node count and the root id. */
  predicate Retriggers(before: GraphState, after: GraphState) {
    |before.nodes| != |after.nodes| || before.rootNodeId != after.rootNodeId
  }

  /** Editing nodes in place (messages, flags, positions) never reruns the layout. */
  lemma {:induction false} EditsDoNotRetrigger(before: GraphState, after: GraphState)
    requires after.nodes.Keys == before.nodes.Keys && after.rootNodeId == before.rootNodeId
    ensures !Retriggers(before, after)
  {
    assert |after.nodes.Keys| == |before.nodes.Keys|;
  }

  /** Adding a node under an id not yet used always reruns it. */
  lemma {:induction false} InsertRetriggers(before: GraphState, after: GraphState, id: string)
    requires id !in before.nodes && after.nodes.Keys == before.nodes.Keys + {id}
    ensures Retriggers(before, after)
  {
    assert |after.nodes.Keys| == |before.nodes.Keys| + 1;
  }

  /** The merge loop's test for one entry: the node exists and its position differs. */
  predicate Moves(nodes: NodeMap, positions: map<string, Position>, id: string) {
    id in positions && id in nodes && nodes[id].position != positions[id]
  }

  /** The nodes after the merge loop has visited the ids in `done`. */
  function MergedOver(nodes: NodeMap, positions: map<string, Position>, done: set<string>): (r: NodeMap)
    ensures r.Keys == nodes.Keys
  {
    map id | id in nodes :: if id in done && Moves(nodes, positions, id) then nodes[id].(position := positions[id]) else nodes[id]
  }

  function Merged(nodes: NodeMap, positions: map<string, Position>): NodeMap {
    MergedOver(nodes, positions, positions.Keys)
  }

  ghost predicate AnyMoves(nodes: NodeMap, positions: map<string, Position>, done: set<string>) {
    exists id :: id in done && Moves(nodes, positions, id)
  }

  /**
   * The write-back loop (useGraphState.ts:36-45): every node with a position
   * gets exactly that position, everything else about it is kept, nodes
   * without one are untouched, and `hasChanges` says whether any position
   * differed.
   */
  method MergePositions(nodes: NodeMap, positions: map<string, Position>) returns (updated: NodeMap, hasChanges: bool)
    ensures updated == Merged(nodes, positions)
    ensures hasChanges <==> AnyMoves(nodes, positions, positions.Keys)
  {
    updated := nodes;
    hasChanges := false;
    var rest := positions.Keys;
    ghost var done: set<string> := {};
    while rest != {}
      invariant rest <= positions.Keys && done == positions.Keys - rest
      invariant updated == MergedOver(nodes, positions, done)
      invariant hasChanges <==> AnyMoves(nodes, positions, done)
      decreases |rest|
    {
      var id :| id in rest;
      MergeStep(nodes, positions, done, id);
      var moved;
      updated, moved := MergeEntry(updated, positions, id);
      hasChanges := hasChanges || moved;
      rest := rest - {id};
      done := done + {id};
    }
  }

  /** One `forEach` callback: re-place the node when it exists and its position differs. */
  method MergeEntry(nodes: NodeMap, positions: map<string, Position>, id: string) returns (updated: NodeMap, moved: bool)
    requires id in positions
    ensures moved <==> Moves(nodes, positions, id)
    ensures moved ==> updated == nodes[id := nodes[id].(position := positions[id])]
    ensures !moved ==> updated == nodes
  {
    updated := nodes;
    moved := false;
    if id in nodes && (nodes[id].position.x != positions[id].x || nodes[id].position.y != positions[id].y) {
      updated := nodes[id := nodes[id].(position := positions[id])];
      moved := true;
    }
  }

  lemma {:induction false} MergeStep(nodes: NodeMap, positions: map<string, Position>, done: set<string>, id: string)
    requires id in positions && id !in done
    ensures id in nodes ==> MergedOver(nodes, positions, done)[id] == nodes[id]
    ensures Moves(nodes, positions, id) ==>
              MergedOver(nodes, positions, done + {id}) == MergedOver(nodes, positions, done)[id := nodes[id].(position := positions[id])]
    ensures !Moves(nodes, positions, id) ==> MergedOver(nodes, positions, done + {id}) == MergedOver(nodes, positions, done)
    ensures AnyMoves(nodes, positions, done + {id}) <==> AnyMoves(nodes, positions, done) || Moves(nodes, positions, id)
  {
  }

  /** The merge read entry by entry: the reference definition the loop meets. */
  lemma {:induction false} MergedAt(nodes: NodeMap, positions: map<string, Position>, id: string)
    requires id in nodes
    ensures id in Merged(nodes, positions)
    ensures id in positions ==> Merged(nodes, positions)[id] == nodes[id].(position := positions[id])
    ensures id !in positions ==> Merged(nodes, positions)[id] == nodes[id]
  {
  }

  /** After one merge nothing moves any more: writing the same layout back a second time is a no-op. */
  lemma {:induction false} MergeSettles(nodes: NodeMap, positions: map<string, Position>)
    ensures !AnyMoves(Merged(nodes, positions), positions, positions.Keys)
    ensures Merged(Merged(nodes, positions), positions) == Merged(nodes, positions)
  {
    var m := Merged(nodes, positions);
    forall id | id in positions.Keys ensures !Moves(m, positions, id) {
      if id in nodes {
        MergedAt(nodes, positions, id);
      }
    }
  }

  /** Same ids, parents and children under the same keys: what ValidGraph looks at. */
  ghost predicate SameStructure(a: NodeMap, b: NodeMap) {
    && a.Keys == b.Keys
    && forall k :: k in a ==> a[k].id == b[k].id && a[k].parentId == b[k].parentId && a[k].children == b[k].children
  }

  lemma {:induction false} SameStructureValid(g: GraphState, b: NodeMap)
    requires ValidGraph(g) && SameStructure(g.nodes, b)
    ensures ValidGraph(g.(nodes := b))
  {
    var a := g.nodes;
    assert |b| == |a| by { assert b.Keys == a.Keys; }
    forall id | id in b ensures StopsWithin(b, id, |b|) {
      SameParentsStop(a, b, id, |b|);
    }
    assert Acyclic(b);
    assert ChildrenPointBack(b);
    assert DistinctChildren(b);
    assert LayoutShaped(b);
  }

  /** Positions carry no structure: the merge keeps the graph a tree. */
  lemma {:induction false} MergeKeepsTree(g: GraphState, positions: map<string, Position>)
    requires ValidGraph(g)
    ensures ValidGraph(g.(nodes := Merged(g.nodes, positions)))
  {
    var b := Merged(g.nodes, positions);
    MergeSameStructure(g.nodes, positions);
    SameStructureValid(g, b);
  }

  lemma {:induction false} MergeSameStructure(nodes: NodeMap, positions: map<string, Position>)
    ensures SameStructure(nodes, Merged(nodes, positions))
  {
    var b := Merged(nodes, positions);
    forall k | k in nodes ensures nodes[k].id == b[k].id && nodes[k].parentId == b[k].parentId && nodes[k].children == b[k].children {
      MergedAt(nodes, positions, k);
    }
  }

  /** Two maps with the same keys and parent links stop their parent walks alike. */
  lemma {:induction false} SameParentsStop(a: NodeMap, b: NodeMap, id: string, fuel: nat)
    requires a.Keys == b.Keys && forall k :: k in a ==> a[k].parentId == b[k].parentId
    ensures StopsWithin(a, id, fuel) == StopsWithin(b, id, fuel)
    decreases fuel
  {
    assert ParentStep(a, id) == ParentStep(b, id);
    if fuel > 0 && ParentStep(a, id).Some? {
      SameParentsStop(a, b, ParentStep(a, id).value, fuel - 1);
    }
  }

  /** `activeNode`: the node stored under the active id; a null or empty id gives none. */
  function ActiveNode(g: GraphState): (r: Option<ChatNode>)
    ensures r.Some? <==> g.activeNodeId.Some? && g.activeNodeId.value != "" && g.activeNodeId.value in g.nodes
    ensures r.Some? ==> r.value == g.nodes[g.activeNodeId.value]
  {
    if g.activeNodeId.Some? && g.activeNodeId.value != "" && g.activeNodeId.value in g.nodes
    then Some(g.nodes[g.activeNodeId.value])
    else None
  }

  /** The hook instance: the held graph state. */
  class GraphStateHook {
    var graphState: GraphState

    constructor ()
      ensures graphState == InitialState
    {
      graphState := InitialState;
    }

    /** The mount effect: create the root when there are no nodes. */
    method InitEffect()
      modifies this
      ensures graphState == Initialized(old(graphState))
    {
      if |graphState.nodes| == 0 {
        var rootNode := CreateNode("root", None, "Start conversation", [], None, false);
        graphState := GraphState(map[rootNode.id := rootNode], Some(rootNode.id), Some(rootNode.id));
      }
    }

    /**
     * The layout effect: when it runs and the layout succeeds, the centred
     * positions it returns in `positions` are merged into the nodes; the
     * state is assigned only when some position differed. `recorded` selects
     * the layout's getParent behaviour; None is the TypeError the layout can
     * throw, which leaves the state alone.
     */
    method LayoutEffect(recorded: bool) returns (positions: Option<map<string, Position>>)
      requires LayoutShaped(graphState.nodes)
      modifies this
      ensures positions.Some? ==> LayoutRuns(old(graphState))
      ensures !LayoutRuns(old(graphState)) ==> graphState == old(graphState)
      ensures LayoutRuns(old(graphState)) && !recorded ==> positions.Some?
      ensures graphState.activeNodeId == old(graphState).activeNodeId
      ensures graphState.rootNodeId == old(graphState).rootNodeId
      ensures positions.None? ==> graphState == old(graphState)
      ensures positions.Some? ==>
                && (forall id :: id in positions.value <==> id in Subtree(old(graphState).nodes, old(graphState).rootNodeId.value))
                && graphState.nodes == Merged(old(graphState).nodes, positions.value)
                && (!recorded ==> forall a, b :: a in positions.value && b in positions.value ==>
                                    positions.value[a].y == positions.value[b].y)
    {
      positions := None;
      if LayoutRuns(graphState) {
        var layout := CalculateTreeLayout(graphState.nodes, graphState.rootNodeId.value, recorded);
        if layout.Some? {
          var centred := CenterTree(layout.value);
          positions := Some(centred);
          var updatedNodes, hasChanges := MergePositions(graphState.nodes, centred);
          if hasChanges {
            graphState := graphState.(nodes := updatedNodes);
          } else {
            MergeSettlesUnmoved(graphState.nodes, centred);
          }
        }
      }
    }

    /**
     * An assignment of a new graph state followed by the layout effect when
     * its dependencies changed; the layout's own write-back changes neither
     * dependency, so it does not run again.
     */
    method SetGraphState(g: GraphState, recorded: bool)
      requires LayoutShaped(g.nodes)
      modifies this
      ensures !Retriggers(old(graphState), g) ==> graphState == g
      ensures graphState.activeNodeId == g.activeNodeId && graphState.rootNodeId == g.rootNodeId
      ensures graphState.nodes.Keys == g.nodes.Keys
      ensures !Retriggers(g, graphState)
    {
      var before := graphState;
      graphState := g;
      if Retriggers(before, g) {
        var positions := LayoutEffect(recorded);
      }
      EditsDoNotRetrigger(g, graphState);
    }
  }

  /** Nothing moving means the merge returns the nodes as they were. */
  lemma {:induction false} MergeSettlesUnmoved(nodes: NodeMap, positions: map<string, Position>)
    requires !AnyMoves(nodes, positions, positions.Keys)
    ensures Merged(nodes, positions) == nodes
  {
  }
}
