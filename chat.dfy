/**
 * The submission and branch controller of
 * frontend/app/components/ChatInterface.tsx.
 *
 * The component's state is the graph (held by useGraphState), the view
 * machine (useBranchAnimation), `input`, `isStreaming`, `branchState`,
 * `selectedText`, and, for the submission whose stream is being read, the
 * closure state of its callbacks: the node they write to and the running
 * `assistantMessage`. Every handler and every callback is one atomic step:
 * `Ui` is that state as a value, the functions below are the steps, and
 * class ChatInterface performs them field by field.
 *
 * A node id made from `Date.now()` is the parameter `newNodeId`; the
 * lemmas that need it to be unused say so.
 */
module Chat {
  import opened Wrappers
  import opened Text
  import opened Graph
  import GraphStore
  import Animation
  import Api

  datatype BranchState = Idle | Selecting | ReadyToBranch

  /** The closure of one submission's callbacks: the node they update and `assistantMessage`. */
  datatype Pending = Pending(target: string, assistantMessage: string)

  datatype Ui = Ui(
    graph: GraphState,
    isStreaming: bool,
    input: string,
    branchState: BranchState,
    selectedText: string,
    animation: Animation.Machine,
    pending: Option<Pending>)

  /** The request a submission sends: nothing, a chat completion, or a branch. */
  datatype Request = NoRequest | Completion(body: seq<(string, Api.Json)>) | Branch(body: seq<(string, Api.Json)>)

  /** The context window every branch request asks for. */
  const ContextWindow: int := 20

  /** The state right after mounting: the root graph, focused view, nothing typed or selected. */
  const Mounted := Ui(GraphStore.Initialized(GraphStore.InitialState), false, [], Idle, [],
                      Animation.Machine(Animation.Focused, Animation.Initial, None), None)

  // ---------------------------------------------------------------------------
  // Submission

  /** The guard of handleSubmit: some non-blank input, no stream in flight, an active node. */
  predicate CanSubmit(s: Ui) {
    Strip(s.input, IsJsWhitespace) != [] && !s.isStreaming && GraphStore.ActiveNode(s.graph).Some?
  }

  /** `branchState === 'ready_to_branch' && selectedText`. */
  predicate IsBranching(s: Ui) {
    s.branchState == ReadyToBranch && s.selectedText != []
  }

  /**
   * handleRegularSubmit: the user message is appended to the active node,
   * which is marked activated, the input is cleared, streaming starts, and
   * the whole history of that node is sent. Frozen or not, the node takes
   * the message.
   */
  function RegularSubmitted(s: Ui, userInput: string): (r: (Ui, Request))
    requires GraphStore.ActiveNode(s.graph).Some?
    ensures var node := GraphStore.ActiveNode(s.graph).value;
            var user := Message(User, userInput);
            && r.0.graph.nodes.Keys == s.graph.nodes.Keys + {node.id}
            && r.0.graph.nodes[node.id] == node.(messages := node.messages + [user], isActivated := true)
            && (forall k :: k in s.graph.nodes && k != node.id ==> r.0.graph.nodes[k] == s.graph.nodes[k])
            && r.0.graph.activeNodeId == s.graph.activeNodeId && r.0.graph.rootNodeId == s.graph.rootNodeId
            && r.0.isStreaming && r.0.input == [] && r.0.branchState == s.branchState
            && r.0.selectedText == s.selectedText && r.0.animation == s.animation
            && r.0.pending == Some(Pending(node.id, []))
            && r.1 == Completion(Api.ChatBody(node.messages + [user]))
  {
    var node := GraphStore.ActiveNode(s.graph).value;
    var user := Message(User, userInput);
    var updated := node.(messages := node.messages + [user], isActivated := true);
    (s.(graph := s.graph.(nodes := s.graph.nodes[node.id := updated]),
        input := [], isStreaming := true, pending := Some(Pending(node.id, []))),
     Completion(Api.ChatBody(node.messages + [user])))
  }

  /** The child a branch inserts, as it stands once the user message is in. */
  function BranchChild(newNodeId: string, parentId: string, userInput: string): (n: ChatNode)
    ensures n.id == newNodeId && n.parentId == Some(parentId) && n.userQuestion == userInput
    ensures n.messages == [Message(User, userInput)] && n.children == [] && !n.isFrozen && n.isActivated
    ensures n.slotId == None
  {
    CreateNode(newNodeId, Some(parentId), userInput).(messages := [Message(User, userInput)])
  }

  /**
   * handleBranchSubmit: with no slot on the active node nothing happens.
   * Otherwise the parent is frozen and lists the new id last among its
   * children, the child is inserted holding the user message and becomes
   * active, the input, branch state and selection are reset, streaming
   * starts, the view machine is started, and the branch request reuses the
   * parent's slot with the selected text.
   */
  function BranchSubmitted(s: Ui, userInput: string, newNodeId: string): (r: (Ui, Request))
    requires GraphStore.ActiveNode(s.graph).Some?
    ensures var parent := GraphStore.ActiveNode(s.graph).value;
            parent.slotId.None? ==> r == (s, NoRequest)
    ensures var parent := GraphStore.ActiveNode(s.graph).value;
            parent.slotId.Some? ==>
            && r.0.graph.nodes.Keys == s.graph.nodes.Keys + {parent.id, newNodeId}
            && r.0.graph.nodes[newNodeId] == BranchChild(newNodeId, parent.id, userInput)
            && (newNodeId != parent.id ==>
                  r.0.graph.nodes[parent.id] == parent.(isFrozen := true, children := parent.children + [newNodeId]))
            && (forall k :: k in s.graph.nodes && k != parent.id && k != newNodeId ==> r.0.graph.nodes[k] == s.graph.nodes[k])
            && r.0.graph.activeNodeId == Some(newNodeId) && r.0.graph.rootNodeId == s.graph.rootNodeId
            && r.0.isStreaming && r.0.input == [] && r.0.branchState == Idle && r.0.selectedText == []
            && r.0.animation == Animation.Assign(s.animation, Animation.Start(newNodeId, parent.id))
            && r.0.pending == Some(Pending(newNodeId, []))
            && r.1 == Branch(Api.BranchBody(parent.slotId.value, Api.ReuseKv, s.selectedText, ContextWindow, userInput))
  {
    var parent := GraphStore.ActiveNode(s.graph).value;
    if parent.slotId.None? then (s, NoRequest)
    else
      var frozen := parent.(isFrozen := true, children := parent.children + [newNodeId]);
      var nodes := s.graph.nodes[parent.id := frozen][newNodeId := BranchChild(newNodeId, parent.id, userInput)];
      (Ui(GraphState(nodes, Some(newNodeId), s.graph.rootNodeId), true, [], Idle, [],
          Animation.Assign(s.animation, Animation.Start(newNodeId, parent.id)),
          Some(Pending(newNodeId, []))),
       Branch(Api.BranchBody(parent.slotId.value, Api.ReuseKv, s.selectedText, ContextWindow, userInput)))
  }

  /**
   * handleSubmit: nothing without non-blank input, while streaming or
   * without an active node; otherwise the branch path exactly when branching
   * was readied with some selected text, the regular path otherwise.
   */
  function Submitted(s: Ui, newNodeId: string): (r: (Ui, Request))
    ensures r.1 == NoRequest ==> r.0 == s
    ensures r.1 == NoRequest <==>
              !CanSubmit(s) || (IsBranching(s) && GraphStore.ActiveNode(s.graph).value.slotId.None?)
    ensures r.1.Completion? <==> CanSubmit(s) && !IsBranching(s)
    ensures r.1.Branch? <==> CanSubmit(s) && IsBranching(s) && GraphStore.ActiveNode(s.graph).value.slotId.Some?
    ensures r.1.Completion? ==> r.0.isStreaming && r.0.pending == Some(Pending(GraphStore.ActiveNode(s.graph).value.id, []))
    ensures r.1.Branch? ==> r.0.isStreaming && r.0.pending == Some(Pending(newNodeId, []))
  {
    if !CanSubmit(s) then (s, NoRequest)
    else if IsBranching(s) then BranchSubmitted(s, s.input, newNodeId)
    else RegularSubmitted(s, s.input)
  }

  /** handleCancelBranch: back to idle with no selection and no input. */
  function BranchCancelled(s: Ui): (r: Ui)
    ensures r.branchState == Idle && r.selectedText == [] && r.input == []
    ensures r.graph == s.graph && r.isStreaming == s.isStreaming && r.animation == s.animation && r.pending == s.pending
  {
    s.(branchState := Idle, selectedText := [], input := [])
  }

  /**
   * handleNodeClick: the clicked id becomes active whether or not it names
   * a node; a node that was not yet activated is marked so; the view
   * toggles.
   */
  function NodeClicked(s: Ui, nodeId: string): (r: Ui)
    ensures r.graph.activeNodeId == Some(nodeId) && r.graph.rootNodeId == s.graph.rootNodeId
    ensures r.graph.nodes.Keys == s.graph.nodes.Keys
    ensures nodeId in s.graph.nodes ==> r.graph.nodes[nodeId] == s.graph.nodes[nodeId].(isActivated := true)
    ensures forall k :: k in s.graph.nodes && k != nodeId ==> r.graph.nodes[k] == s.graph.nodes[k]
    ensures r.animation == s.animation.(viewMode := Animation.Toggle(s.animation.viewMode))
    ensures r.input == s.input && r.isStreaming == s.isStreaming && r.pending == s.pending
    ensures r.branchState == s.branchState && r.selectedText == s.selectedText
  {
    var nodes := if nodeId in s.graph.nodes && !s.graph.nodes[nodeId].isActivated
                 then s.graph.nodes[nodeId := s.graph.nodes[nodeId].(isActivated := true)]
                 else s.graph.nodes;
    s.(graph := GraphState(nodes, Some(nodeId), s.graph.rootNodeId),
       animation := s.animation.(viewMode := Animation.Toggle(s.animation.viewMode)))
  }

  // ---------------------------------------------------------------------------
  // Callbacks

  /** `chunk.choices[0]?.delta?.content || ''`. */
  function ChunkText(c: Api.StreamChunk): string {
    c.content.GetOr([])
  }

  predicate EndsWithAnswer(messages: seq<Message>) {
    |messages| > 0 && messages[|messages| - 1].role == Assistant
  }

  /** The chunk updater's messages: a trailing assistant message is replaced, otherwise one is pushed. */
  function WithAnswer(messages: seq<Message>, text: string): (r: seq<Message>)
    ensures EndsWithAnswer(messages) ==> r == messages[..|messages| - 1] + [Message(Assistant, text)]
    ensures !EndsWithAnswer(messages) ==> r == messages + [Message(Assistant, text)]
  {
    if EndsWithAnswer(messages) then messages[..|messages| - 1] + [Message(Assistant, text)]
    else messages + [Message(Assistant, text)]
  }

  /** Rewriting the answer twice is rewriting it once with the later text. */
  lemma {:induction false} WithAnswerTwice(messages: seq<Message>, a: string, b: string)
    ensures WithAnswer(WithAnswer(messages, a), b) == WithAnswer(messages, b)
  {
    var once := WithAnswer(messages, a);
    assert once[..|once| - 1] == (if EndsWithAnswer(messages) then messages[..|messages| - 1] else messages);
  }

  /** The per-chunk updater: a missing node leaves the map as it was. */
  function ChunkApplied(nodes: NodeMap, target: string, text: string, slot: Option<int>): NodeMap {
    if target !in nodes then nodes
    else
      var node := nodes[target];
      nodes[target := node.(messages := WithAnswer(node.messages, text),
                            slotId := if slot.Some? then slot else node.slotId)]
  }

  /** The error updater: one more assistant message carrying the error text. */
  function ErrorApplied(nodes: NodeMap, target: string, error: string): NodeMap {
    if target !in nodes then nodes
    else nodes[target := nodes[target].(messages := nodes[target].messages + [Message(Assistant, "Error: " + error)])]
  }

  /** onChunk: the text grows by the chunk's content and is written into the target. */
  function Chunked(s: Ui, c: Api.StreamChunk): (r: Ui)
    requires s.pending.Some?
    ensures r.pending == Some(Pending(s.pending.value.target, s.pending.value.assistantMessage + ChunkText(c)))
  {
    var p := s.pending.value;
    var text := p.assistantMessage + ChunkText(c);
    s.(graph := s.graph.(nodes := ChunkApplied(s.graph.nodes, p.target, text, c.slotId)),
       pending := Some(Pending(p.target, text)))
  }

  /** onDone: streaming stops; nothing else changes. */
  function Done(s: Ui): (r: Ui)
    ensures !r.isStreaming && r == s.(isStreaming := false)
  {
    s.(isStreaming := false)
  }

  /** onError: the target gains an error message and streaming stops. */
  function Errored(s: Ui, error: string): (r: Ui)
    requires s.pending.Some?
    ensures !r.isStreaming && r.pending == s.pending
  {
    s.(graph := s.graph.(nodes := ErrorApplied(s.graph.nodes, s.pending.value.target, error)), isStreaming := false)
  }

  /** One callback. */
  function Step(s: Ui, e: Api.Event): (r: Ui)
    requires s.pending.Some?
    ensures r.pending.Some? && r.pending.value.target == s.pending.value.target
  {
    match e
    case OnChunk(c) => Chunked(s, c)
    case OnDone => Done(s)
    case OnError(error) => Errored(s, error)
  }

  /** The callbacks of one stream, applied in order. */
  function Deliver(s: Ui, events: seq<Api.Event>): (r: Ui)
    requires s.pending.Some?
    ensures r.pending.Some? && r.pending.value.target == s.pending.value.target
    decreases |events|
  {
    if events == [] then s else Deliver(Step(s, events[0]), events[1..])
  }

  /** The concatenated content of a run of chunks. */
  function ChunksText(cs: seq<Api.StreamChunk>): string {
    if cs == [] then [] else ChunkText(cs[0]) + ChunksText(cs[1..])
  }

  /** `chunk.slot_id ?? node.slotId` over a run of chunks: the last slot id sent, or `slot`. */
  function LastSlot(cs: seq<Api.StreamChunk>, slot: Option<int>): Option<int> {
    if cs == [] then slot else LastSlot(cs[1..], if cs[0].slotId.Some? then cs[0].slotId else slot)
  }

  function ChunkEvents(cs: seq<Api.StreamChunk>): (es: seq<Api.Event>)
    ensures |es| == |cs| && forall i :: 0 <= i < |cs| ==> es[i] == Api.OnChunk(cs[i])
  {
    seq(|cs|, i requires 0 <= i < |cs| => Api.OnChunk(cs[i]))
  }

  /** Two nodes that differ at most in their messages and slot. */
  predicate SameButAnswer(a: ChatNode, b: ChatNode) {
    a.(messages := b.messages, slotId := b.slotId) == b
  }

  /**
   * The accumulation invariant: once the target holds `pre` followed by the
   * assistant message with the text so far, every further chunk keeps it
   * that shape with the longer text; other nodes and every other field stay.
   */
  lemma {:induction false} ChunksExtend(s: Ui, cs: seq<Api.StreamChunk>, pre: seq<Message>)
    requires s.pending.Some? && s.pending.value.target in s.graph.nodes
    requires s.graph.nodes[s.pending.value.target].messages == pre + [Message(Assistant, s.pending.value.assistantMessage)]
    ensures var r := Deliver(s, ChunkEvents(cs));
            var t := s.pending.value.target;
            && r.graph.nodes.Keys == s.graph.nodes.Keys
            && r.graph.nodes[t].messages == pre + [Message(Assistant, s.pending.value.assistantMessage + ChunksText(cs))]
            && r.graph.nodes[t].slotId == LastSlot(cs, s.graph.nodes[t].slotId)
            && SameButAnswer(s.graph.nodes[t], r.graph.nodes[t])
            && (forall k :: k in s.graph.nodes && k != t ==> r.graph.nodes[k] == s.graph.nodes[k])
            && r == s.(graph := r.graph.(nodes := r.graph.nodes), pending := r.pending)
            && r.graph.activeNodeId == s.graph.activeNodeId && r.graph.rootNodeId == s.graph.rootNodeId
    decreases |cs|
  {
    var t := s.pending.value.target;
    if cs == [] {
      assert s.pending.value.assistantMessage + [] == s.pending.value.assistantMessage;
    } else {
      var s1 := Chunked(s, cs[0]);
      var acc := s.pending.value.assistantMessage;
      assert Deliver(s, ChunkEvents(cs)) == Deliver(s1, ChunkEvents(cs[1..])) by {
        assert ChunkEvents(cs)[1..] == ChunkEvents(cs[1..]);
      }
      ChunkOnAnswer(s, cs[0], pre);
      ChunksExtend(s1, cs[1..], pre);
      assert acc + ChunkText(cs[0]) + ChunksText(cs[1..]) == acc + ChunksText(cs);
    }
  }

  /** One chunk on a target ending in the answer so far: the answer grows, nothing else moves. */
  lemma {:induction false} ChunkOnAnswer(s: Ui, c: Api.StreamChunk, pre: seq<Message>)
    requires s.pending.Some? && s.pending.value.target in s.graph.nodes
    requires s.graph.nodes[s.pending.value.target].messages == pre + [Message(Assistant, s.pending.value.assistantMessage)]
    ensures var r := Chunked(s, c);
            var t := s.pending.value.target;
            && r.graph.nodes.Keys == s.graph.nodes.Keys
            && r.graph.nodes[t].messages == pre + [Message(Assistant, s.pending.value.assistantMessage + ChunkText(c))]
            && r.graph.nodes[t].slotId == (if c.slotId.Some? then c.slotId else s.graph.nodes[t].slotId)
            && SameButAnswer(s.graph.nodes[t], r.graph.nodes[t])
            && (forall k :: k in s.graph.nodes && k != t ==> r.graph.nodes[k] == s.graph.nodes[k])
            && r == s.(graph := r.graph.(nodes := r.graph.nodes), pending := r.pending)
            && r.graph.activeNodeId == s.graph.activeNodeId && r.graph.rootNodeId == s.graph.rootNodeId
  {
    var t := s.pending.value.target;
    assert EndsWithAnswer(s.graph.nodes[t].messages);
    assert (pre + [Message(Assistant, s.pending.value.assistantMessage)])[..|pre|] == pre;
  }

  /**
   * Streaming accumulation: from a fresh submission whose target does not
   * end with an answer, k >= 1 chunks leave its messages as they were plus
   * exactly one assistant message holding the concatenated contents, and
   * its slot the last one sent (or its own).
   */
  lemma {:induction false} StreamedAnswer(s: Ui, cs: seq<Api.StreamChunk>)
    requires s.pending.Some? && s.pending.value.assistantMessage == []
    requires s.pending.value.target in s.graph.nodes
    requires !EndsWithAnswer(s.graph.nodes[s.pending.value.target].messages)
    requires |cs| > 0
    ensures var r := Deliver(s, ChunkEvents(cs));
            var t := s.pending.value.target;
            && r.graph.nodes.Keys == s.graph.nodes.Keys
            && r.graph.nodes[t].messages == s.graph.nodes[t].messages + [Message(Assistant, ChunksText(cs))]
            && r.graph.nodes[t].slotId == LastSlot(cs, s.graph.nodes[t].slotId)
            && SameButAnswer(s.graph.nodes[t], r.graph.nodes[t])
            && (forall k :: k in s.graph.nodes && k != t ==> r.graph.nodes[k] == s.graph.nodes[k])
  {
    var t := s.pending.value.target;
    var pre := s.graph.nodes[t].messages;
    var s1 := Chunked(s, cs[0]);
    assert ChunkEvents(cs)[1..] == ChunkEvents(cs[1..]);
    assert Deliver(s, ChunkEvents(cs)) == Deliver(s1, ChunkEvents(cs[1..]));
    assert [] + ChunkText(cs[0]) == ChunkText(cs[0]);
    ChunksExtend(s1, cs[1..], pre);
    assert ChunkText(cs[0]) + ChunksText(cs[1..]) == ChunksText(cs);
  }

  /** onError: exactly one error message after the messages as they were; a missing target changes nothing. */
  lemma {:induction false} ErrorAppendsOne(s: Ui, error: string)
    requires s.pending.Some?
    ensures var t := s.pending.value.target;
            var r := Errored(s, error);
            && !r.isStreaming
            && (t !in s.graph.nodes ==> r.graph == s.graph)
            && (t in s.graph.nodes ==>
                  && r.graph.nodes == s.graph.nodes[t := r.graph.nodes[t]]
                  && r.graph.nodes[t] == s.graph.nodes[t].(messages := s.graph.nodes[t].messages + [Message(Assistant, "Error: " + error)]))
  {
  }

  /** A callback whose target has gone leaves the graph untouched. */
  lemma {:induction false} MissingTargetUntouched(s: Ui, events: seq<Api.Event>)
    requires s.pending.Some? && s.pending.value.target !in s.graph.nodes
    ensures Deliver(s, events).graph == s.graph
    decreases |events|
  {
    if events != [] {
      MissingTargetUntouched(Step(s, events[0]), events[1..]);
    }
  }

  /** One callback keeps every node's id, parent and children, and the active and root ids. */
  lemma {:induction false} StepSameStructure(s: Ui, e: Api.Event)
    requires s.pending.Some?
    ensures GraphStore.SameStructure(s.graph.nodes, Step(s, e).graph.nodes)
    ensures Step(s, e).graph.activeNodeId == s.graph.activeNodeId
    ensures Step(s, e).graph.rootNodeId == s.graph.rootNodeId
  {
    var t := s.pending.value.target;
    match e
    case OnChunk(c) =>
      assert Step(s, e).graph.nodes == ChunkApplied(s.graph.nodes, t, s.pending.value.assistantMessage + ChunkText(c), c.slotId);
    case OnDone =>
    case OnError(error) =>
      assert Step(s, e).graph.nodes == ErrorApplied(s.graph.nodes, t, error);
  }

  /** The callbacks rewrite messages and slots only, so the graph keeps its shape. */
  lemma {:induction false} DeliverKeepsTree(s: Ui, events: seq<Api.Event>)
    requires s.pending.Some? && ValidGraph(s.graph)
    ensures ValidGraph(Deliver(s, events).graph)
    ensures Deliver(s, events).graph.activeNodeId == s.graph.activeNodeId
    ensures Deliver(s, events).graph.nodes.Keys == s.graph.nodes.Keys
    decreases |events|
  {
    if events != [] {
      var s1 := Step(s, events[0]);
      StepSameStructure(s, events[0]);
      GraphStore.SameStructureValid(s.graph, s1.graph.nodes);
      assert s1.graph == s.graph.(nodes := s1.graph.nodes);
      DeliverKeepsTree(s1, events[1..]);
    }
  }

  /** Scenario: chunks "Hel" and "lo", then done, leave the node ending in one answer "Hello". */
  lemma {:induction false} HelloScenario(s: Ui, slot: Option<int>)
    requires s.pending.Some? && s.pending.value.assistantMessage == []
    requires s.pending.value.target in s.graph.nodes
    requires !EndsWithAnswer(s.graph.nodes[s.pending.value.target].messages)
    ensures var r := Deliver(s, [Api.OnChunk(Api.StreamChunk(Some("Hel"), slot)), Api.OnChunk(Api.StreamChunk(Some("lo"), None)), Api.OnDone]);
            var t := s.pending.value.target;
            && !r.isStreaming && t in r.graph.nodes
            && r.graph.nodes[t].messages == s.graph.nodes[t].messages + [Message(Assistant, "Hello")]
            && r.graph.nodes[t].slotId == (if slot.Some? then slot else s.graph.nodes[t].slotId)
  {
    var cs := [Api.StreamChunk(Some("Hel"), slot), Api.StreamChunk(Some("lo"), None)];
    var es := [Api.OnChunk(Api.StreamChunk(Some("Hel"), slot)), Api.OnChunk(Api.StreamChunk(Some("lo"), None)), Api.OnDone];
    var mid := Deliver(s, ChunkEvents(cs));
    assert Deliver(s, es) == Done(mid) by {
      DeliverAppend(s, ChunkEvents(cs), [Api.OnDone]);
      assert ChunkEvents(cs) + [Api.OnDone] == es;
      assert [Api.OnDone][1..] == [];
    }
    var t := s.pending.value.target;
    assert mid.graph.nodes[t].messages == s.graph.nodes[t].messages + [Message(Assistant, "Hello")]
        && mid.graph.nodes[t].slotId == (if slot.Some? then slot else s.graph.nodes[t].slotId) by {
      StreamedAnswer(s, cs);
      HelloChunks(slot, s.graph.nodes[t].slotId);
    }
  }

  /** The two chunks of the scenario carry "Hello" and leave the first chunk's slot, if any. */
  lemma {:induction false} HelloChunks(slot: Option<int>, own: Option<int>)
    ensures var cs := [Api.StreamChunk(Some("Hel"), slot), Api.StreamChunk(Some("lo"), None)];
            && ChunksText(cs) == "Hello"
            && LastSlot(cs, own) == (if slot.Some? then slot else own)
  {
    var cs := [Api.StreamChunk(Some("Hel"), slot), Api.StreamChunk(Some("lo"), None)];
    assert cs[1..] == [cs[1]] && cs[1..][1..] == [];
    assert ChunksText(cs[1..][1..]) == [];
    assert ChunksText(cs[1..]) == "lo" by {
      assert ChunksText(cs[1..]) == ChunkText(cs[1]) + ChunksText(cs[1..][1..]);
    }
    assert ChunksText(cs) == "Hello" by {
      assert ChunksText(cs) == ChunkText(cs[0]) + ChunksText(cs[1..]);
    }
    assert LastSlot(cs, own) == LastSlot([], if slot.Some? then slot else own);
  }

  /** Callbacks in two batches are the callbacks of both together. */
  lemma {:induction false} DeliverAppend(s: Ui, a: seq<Api.Event>, b: seq<Api.Event>)
    requires s.pending.Some?
    ensures Deliver(s, a + b) == Deliver(Deliver(s, a), b)
    decreases |a|
  {
    if a == [] {
      assert a + b == b;
    } else {
      assert (a + b)[1..] == a[1..] + b;
      DeliverAppend(Step(s, a[0]), a[1..], b);
    }
  }

  // ---------------------------------------------------------------------------
  // What the handlers do to the tree

  /** An unchanged-parent map extension keeps every old walk, with the same fuel. */
  lemma {:induction false} WalksKept(a: NodeMap, b: NodeMap, id: string, fuel: nat)
    requires TreeShaped(a) && id in a && StopsWithin(a, id, fuel)
    requires forall k :: k in a ==> k in b && b[k].parentId == a[k].parentId
    ensures StopsWithin(b, id, fuel)
    decreases fuel
  {
    assert ParentStep(b, id) == ParentStep(a, id);
    if ParentStep(a, id).Some? {
      WalksKept(a, b, ParentStep(a, id).value, fuel - 1);
    }
  }

  /** The nodes after a branch from `parent` under the id `newId`. */
  function Branched(a: NodeMap, parent: string, newId: string, userInput: string): NodeMap
    requires parent in a
  {
    a[parent := a[parent].(isFrozen := true, children := a[parent].children + [newId])]
     [newId := BranchChild(newId, parent, userInput)]
  }

  lemma {:induction false} BranchedAcyclic(a: NodeMap, parent: string, newId: string, userInput: string)
    requires TreeShaped(a) && parent in a && newId !in a
    ensures Acyclic(Branched(a, parent, newId, userInput))
  {
    var b := Branched(a, parent, newId, userInput);
    assert b.Keys == a.Keys + {newId};
    assert |b| == |a| + 1 by {
      assert |b.Keys| == |a.Keys| + 1;
    }
    forall id | id in a ensures StopsWithin(b, id, |b|) {
      WalksKept(a, b, id, |a|);
      MoreFuel(b, id, |a|, |b|);
    }
    assert parent != "";
    assert StopsWithin(b, newId, |b|) by {
      assert ParentStep(b, newId) == Some(parent);
      WalksKept(a, b, parent, |a|);
    }
  }

  lemma {:induction false} BranchedLinks(a: NodeMap, parent: string, newId: string, userInput: string)
    requires TreeShaped(a) && parent in a && newId !in a && newId != ""
    ensures var b := Branched(a, parent, newId, userInput);
            && "" !in b && ChildrenPointBack(b) && DistinctChildren(b)
            && (forall k :: k in b ==> b[k].id == k)
            && (forall p, c :: p in b && c in b[p].children ==> c in b)
  {
    var b := Branched(a, parent, newId, userInput);
    assert newId !in a[parent].children;
    NoDupConcat(a[parent].children, [newId]);
  }

  lemma {:induction false} BranchedParents(a: NodeMap, parent: string, newId: string, userInput: string)
    requires TreeShaped(a) && parent in a && newId !in a
    ensures var b := Branched(a, parent, newId, userInput);
            forall c :: c in b && b[c].parentId.Some? ==>
              b[c].parentId.value in b && c in b[b[c].parentId.value].children
  {
  }

  /** A branch from `parent` under an unused id keeps a valid graph valid. */
  lemma {:induction false} BranchNodesTree(g: GraphState, parent: string, newId: string, userInput: string)
    requires ValidGraph(g) && parent in g.nodes && newId !in g.nodes && newId != ""
    ensures ValidGraph(GraphState(Branched(g.nodes, parent, newId, userInput), Some(newId), g.rootNodeId))
  {
    var b := Branched(g.nodes, parent, newId, userInput);
    assert TreeShaped(b) by {
      BranchedAcyclic(g.nodes, parent, newId, userInput);
      BranchedLinks(g.nodes, parent, newId, userInput);
      BranchedParents(g.nodes, parent, newId, userInput);
    }
    BranchedRoots(g, parent, newId, userInput);
  }

  /** The new child has a parent and the root stays present, so the root is still the only parentless node. */
  lemma {:induction false} BranchedRoots(g: GraphState, parent: string, newId: string, userInput: string)
    requires ValidGraph(g) && parent in g.nodes && newId !in g.nodes
    ensures var b := Branched(g.nodes, parent, newId, userInput);
            && g.rootNodeId.Some? && g.rootNodeId.value in b
            && (forall id :: id in b ==> (b[id].parentId.None? <==> g.rootNodeId == Some(id)))
  {
    var b := Branched(g.nodes, parent, newId, userInput);
    assert b[newId].parentId == Some(parent);
    forall id | id in b && id != newId ensures b[id].parentId == g.nodes[id].parentId {
    }
  }

  /**
   * A branch from a valid graph under an unused non-empty id keeps it a
   * single rooted tree, `c in p.children <==> nodes[c].parentId == p`
   * included, and leaves the new child active and present.
   */
  lemma {:induction false} BranchKeepsTree(s: Ui, userInput: string, newNodeId: string)
    requires ValidGraph(s.graph) && GraphStore.ActiveNode(s.graph).Some?
    requires newNodeId !in s.graph.nodes && newNodeId != ""
    ensures ValidGraph(BranchSubmitted(s, userInput, newNodeId).0.graph)
    ensures BranchSubmitted(s, userInput, newNodeId).0.graph.activeNodeId.value in BranchSubmitted(s, userInput, newNodeId).0.graph.nodes
  {
    var parent := GraphStore.ActiveNode(s.graph).value;
    if parent.slotId.Some? {
      assert parent.id == s.graph.activeNodeId.value;
      assert BranchSubmitted(s, userInput, newNodeId).0.graph ==
             GraphState(Branched(s.graph.nodes, parent.id, newNodeId, userInput), Some(newNodeId), s.graph.rootNodeId);
      BranchNodesTree(s.graph, parent.id, newNodeId, userInput);
    }
  }

  /** A regular submission rewrites messages and the activated flag only, so the graph keeps its shape. */
  lemma {:induction false} RegularKeepsTree(s: Ui, userInput: string)
    requires ValidGraph(s.graph) && GraphStore.ActiveNode(s.graph).Some?
    ensures ValidGraph(RegularSubmitted(s, userInput).0.graph)
    ensures RegularSubmitted(s, userInput).0.graph.nodes.Keys == s.graph.nodes.Keys
  {
    var node := GraphStore.ActiveNode(s.graph).value;
    assert node.id == s.graph.activeNodeId.value;
    var r := RegularSubmitted(s, userInput).0;
    assert GraphStore.SameStructure(s.graph.nodes, r.graph.nodes);
    GraphStore.SameStructureValid(s.graph, r.graph.nodes);
  }

  /** A branch adds a node, so the layout effect runs again. */
  lemma {:induction false} BranchRelayouts(s: Ui, userInput: string, newNodeId: string)
    requires ValidGraph(s.graph) && GraphStore.ActiveNode(s.graph).Some?
    requires GraphStore.ActiveNode(s.graph).value.slotId.Some? && newNodeId !in s.graph.nodes
    ensures GraphStore.Retriggers(s.graph, BranchSubmitted(s, userInput, newNodeId).0.graph)
  {
    var parent := GraphStore.ActiveNode(s.graph).value;
    assert parent.id == s.graph.activeNodeId.value;
    GraphStore.InsertRetriggers(s.graph, BranchSubmitted(s, userInput, newNodeId).0.graph, newNodeId);
  }

  /** Streamed callbacks only edit nodes, so they never rerun the layout. */
  lemma {:induction false} DeliverNoRelayout(s: Ui, events: seq<Api.Event>)
    requires s.pending.Some? && ValidGraph(s.graph)
    ensures !GraphStore.Retriggers(s.graph, Deliver(s, events).graph)
  {
    DeliverKeepsTree(s, events);
    MissingRootStays(s, events);
    GraphStore.EditsDoNotRetrigger(s.graph, Deliver(s, events).graph);
  }

  lemma {:induction false} MissingRootStays(s: Ui, events: seq<Api.Event>)
    requires s.pending.Some?
    ensures Deliver(s, events).graph.rootNodeId == s.graph.rootNodeId
    decreases |events|
  {
    if events != [] {
      MissingRootStays(Step(s, events[0]), events[1..]);
    }
  }

  /**
   * Nothing stops a frozen node from taking a message: a regular
   * submission on a frozen active node appends to it like to any other.
   */
  lemma {:induction false} FrozenNodeTakesMessages(s: Ui)
    requires CanSubmit(s) && !IsBranching(s) && GraphStore.ActiveNode(s.graph).value.isFrozen
    ensures var node := GraphStore.ActiveNode(s.graph).value;
            var r := Submitted(s, []).0;
            r.graph.nodes[node.id].isFrozen &&
            r.graph.nodes[node.id].messages == node.messages + [Message(User, s.input)]
  {
  }

  /** From mounting, a first question on the root goes the regular way: the root holds it and is activated. */
  lemma {:induction false} FirstQuestion(question: string, newNodeId: string)
    requires Strip(question, IsJsWhitespace) != []
    ensures var r := Submitted(Mounted.(input := question), newNodeId);
            && r.1 == Completion(Api.ChatBody([Message(User, question)]))
            && r.0.graph.nodes["root"].messages == [Message(User, question)]
            && r.0.graph.nodes["root"].isActivated
            && r.0.isStreaming && r.0.input == []
  {
    MountedIsRegular(question, newNodeId);
    RegularOnRoot(Mounted.(input := question), question);
  }

  /** A regular submission while the root is active lands the question on the root. */
  lemma {:induction false} RegularOnRoot(s: Ui, question: string)
    requires GraphStore.ActiveNode(s.graph) == Some(GraphStore.RootNode())
    ensures var r := RegularSubmitted(s, question);
            && r.1 == Completion(Api.ChatBody([Message(User, question)]))
            && r.0.graph.nodes["root"].messages == [Message(User, question)]
            && r.0.graph.nodes["root"].isActivated
            && r.0.isStreaming && r.0.input == []
  {
    assert GraphStore.RootNode().messages + [Message(User, question)] == [Message(User, question)];
  }

  /** After mounting the active node is the root, and a non-blank question takes the regular path. */
  lemma {:induction false} MountedIsRegular(question: string, newNodeId: string)
    requires Strip(question, IsJsWhitespace) != []
    ensures var s := Mounted.(input := question);
            && GraphStore.ActiveNode(s.graph) == Some(GraphStore.RootNode())
            && Submitted(s, newNodeId) == RegularSubmitted(s, question)
  {
    var s := Mounted.(input := question);
    MountedRoot();
    assert s.graph == Mounted.graph;
    assert CanSubmit(s) && !IsBranching(s);
  }

  /** Mounting activates the root node. */
  lemma {:induction false} MountedRoot()
    ensures GraphStore.ActiveNode(Mounted.graph) == Some(GraphStore.RootNode())
  {
    assert |GraphStore.InitialState.nodes| == 0;
    assert Mounted.graph == GraphStore.RootGraph;
    assert GraphStore.RootGraph.nodes["root"] == GraphStore.RootNode();
  }

  // ---------------------------------------------------------------------------
  // The component

  class ChatInterface {
    var graph: GraphState
    var animation: Animation.Machine
    var input: string
    var isStreaming: bool
    var branchState: BranchState
    var selectedText: string
    /** The callbacks of the submission in flight, if any. */
    var pending: Option<Pending>

    function State(): Ui
      reads this
    {
      Ui(graph, isStreaming, input, branchState, selectedText, animation, pending)
    }

    /** Mounting: both hooks' initial state, and the root created by the graph hook's mount effect. */
    constructor ()
      ensures State() == Mounted
    {
      graph := GraphStore.RootGraph;
      animation := Animation.Machine(Animation.Focused, Animation.Initial, None);
      input := [];
      isStreaming := false;
      branchState := Idle;
      selectedText := [];
      pending := None;
    }

    /** The textarea's `setInput`. */
    method SetInput(text: string)
      modifies this`input
      ensures input == text
    {
      input := text;
    }

    /** The selection hook's `setSelectedText` (how the text is captured is not modelled). */
    method SetSelectedText(text: string)
      modifies this`selectedText
      ensures selectedText == text
    {
      selectedText := text;
    }

    /** handleInitiateBranch. */
    method InitiateBranch()
      modifies this`branchState
      ensures branchState == ReadyToBranch
    {
      branchState := ReadyToBranch;
    }

    method CancelBranch()
      modifies this
      ensures State() == BranchCancelled(old(State()))
    {
      branchState := Idle;
      selectedText := [];
      input := [];
    }

    method Submit(newNodeId: string) returns (request: Request)
      modifies this
      ensures (State(), request) == Submitted(old(State()), newNodeId)
    {
      var activeNode := GraphStore.ActiveNode(graph);
      if Strip(input, IsJsWhitespace) == [] || isStreaming || activeNode.None? {
        return NoRequest;
      }
      var userMessage := Message(User, input);
      var userInput := input;
      if branchState == ReadyToBranch && selectedText != [] {
        request := BranchSubmit(userInput, newNodeId);
      } else {
        request := RegularSubmit(userMessage, userInput);
      }
    }

    method RegularSubmit(userMessage: Message, userInput: string) returns (request: Request)
      requires GraphStore.ActiveNode(graph).Some? && userMessage == Message(User, userInput)
      modifies this
      ensures (State(), request) == RegularSubmitted(old(State()), userInput)
    {
      var activeNode := GraphStore.ActiveNode(graph).value;
      var updatedNode := activeNode.(messages := activeNode.messages + [userMessage], isActivated := true);
      graph := graph.(nodes := graph.nodes[activeNode.id := updatedNode]);
      input := [];
      isStreaming := true;
      pending := Some(Pending(activeNode.id, []));
      request := Completion(Api.ChatBody(activeNode.messages + [userMessage]));
    }

    method BranchSubmit(userInput: string, newNodeId: string) returns (request: Request)
      requires GraphStore.ActiveNode(graph).Some?
      modifies this
      ensures (State(), request) == BranchSubmitted(old(State()), userInput, newNodeId)
    {
      var activeNode := GraphStore.ActiveNode(graph).value;
      if activeNode.slotId.None? {
        return NoRequest;
      }
      var newNode := CreateNode(newNodeId, Some(activeNode.id), userInput);
      var updatedNodes := graph.nodes[activeNode.id := activeNode.(isFrozen := true, children := activeNode.children + [newNodeId])];
      updatedNodes := updatedNodes[newNodeId := newNode];
      graph := graph.(nodes := updatedNodes, activeNodeId := Some(newNodeId));
      animation := Animation.Assign(animation, Animation.Start(newNodeId, activeNode.id));
      input := [];
      branchState := Idle;
      var excerpt := selectedText;
      selectedText := [];
      isStreaming := true;
      var userMessage := Message(User, userInput);
      graph := graph.(nodes := updatedNodes[newNodeId := newNode.(messages := [userMessage])]);
      assert newNode.(messages := [userMessage]) == BranchChild(newNodeId, activeNode.id, userInput);
      assert graph.nodes == old(graph).nodes[activeNode.id := activeNode.(isFrozen := true, children := activeNode.children + [newNodeId])]
                                           [newNodeId := BranchChild(newNodeId, activeNode.id, userInput)];
      assert excerpt == old(selectedText);
      pending := Some(Pending(newNodeId, []));
      request := Branch(Api.BranchBody(activeNode.slotId.value, Api.ReuseKv, excerpt, ContextWindow, userInput));
    }

    /** The onChunk closure. */
    method HandleChunk(chunk: Api.StreamChunk)
      requires pending.Some?
      modifies this
      ensures State() == Chunked(old(State()), chunk)
    {
      var target := pending.value.target;
      var assistantMessage := pending.value.assistantMessage + chunk.content.GetOr([]);
      pending := Some(Pending(target, assistantMessage));
      if target in graph.nodes {
        var node := graph.nodes[target];
        var messages := node.messages;
        if |messages| > 0 && messages[|messages| - 1].role == Assistant {
          messages := messages[..|messages| - 1] + [Message(Assistant, assistantMessage)];
        } else {
          messages := messages + [Message(Assistant, assistantMessage)];
        }
        var slotId := if chunk.slotId.Some? then chunk.slotId else node.slotId;
        graph := graph.(nodes := graph.nodes[target := node.(messages := messages, slotId := slotId)]);
      }
    }

    method HandleDone()
      modifies this
      ensures State() == Done(old(State()))
    {
      isStreaming := false;
    }

    method HandleError(error: string)
      requires pending.Some?
      modifies this
      ensures State() == Errored(old(State()), error)
    {
      var target := pending.value.target;
      if target in graph.nodes {
        var node := graph.nodes[target];
        graph := graph.(nodes := graph.nodes[target := node.(messages := node.messages + [Message(Assistant, "Error: " + error)])]);
      }
      isStreaming := false;
    }

    /** Runs the callbacks a stream makes, in order. */
    method Consume(events: seq<Api.Event>)
      requires pending.Some?
      modifies this
      ensures State() == Deliver(old(State()), events)
    {
      var i := 0;
      while i < |events|
        invariant 0 <= i <= |events| && pending.Some?
        invariant Deliver(State(), events[i..]) == Deliver(old(State()), events)
      {
        assert events[i..][1..] == events[i + 1..];
        match events[i] {
          case OnChunk(c) => HandleChunk(c);
          case OnDone => HandleDone();
          case OnError(e) => HandleError(e);
        }
        i := i + 1;
      }
    }

    method NodeClick(nodeId: string)
      modifies this
      ensures State() == NodeClicked(old(State()), nodeId)
    {
      if nodeId in graph.nodes && !graph.nodes[nodeId].isActivated {
        var node := graph.nodes[nodeId];
        graph := graph.(nodes := graph.nodes[nodeId := node.(isActivated := true)], activeNodeId := Some(nodeId));
      } else {
        graph := graph.(activeNodeId := Some(nodeId));
      }
      animation := animation.(viewMode := Animation.Toggle(animation.viewMode));
    }
  }
}
