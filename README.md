# Branching conversations: a verified model

This project models the core of a chat application whose conversations branch.
Each exchange is a node of a tree. Selecting text in an answer and asking about it
creates a child node: the parent is frozen, the child gets its own thread, and the
backend continues from the parent's language-model state. The tree is drawn
left to right by a Reingold–Tilford style layout.

The modules follow the program's files:

- `Graph` (graph.dfy): the chat-node map and its helpers: parent paths, depths,
  descendants, leaves, node creation and (de)serialisation. The shape the layout
  needs (children point back, parents are acyclic, children are distinct) is stated
  as predicates.
- `Arena`, `LayoutSums`, `Layout`, `LayoutFinding` (arena.dfy, layoutsums.dfy,
  layout.dfy, layoutfinding.dfy): the layout.
  - `buildTree` becomes a pre-order arena of tree nodes.
  - The mutable layout fields become the sequence fields of the class
    `Layout.LayoutTree`, updated by `firstWalk`, `apportion`, `moveSubtree`,
    `executeShifts` and `secondWalk`.
  - The flattening, bounding box and centring follow.
  - The flag `recorded` chooses between the parent table as written (`false`)
    and a parent table filled before the walks (`true`).
- `GraphStore` (graphstate.dfy): the graph-state hook. It initialises the root
  node, re-runs the layout when the node set or the root changes, and writes the
  computed positions back.
- `Animation` (animation.dfy): the branch animation hook. It is a timer-driven
  stage machine, and it toggles the view mode.
- `Api` (stream.dfy): the streaming client. It splits the response body into
  lines, dispatches `data:` lines to chunk, done and error callbacks, and builds
  the request bodies.
- `Chat` (chat.dfy): the chat interface. It covers submit (regular and branch),
  cancelling a branch, node clicks, and how stream events update the graph.
  `Chat.ChatInterface` is the component's state, with a method per handler.
- `Backend` (backend.dfy): the Python service. It covers the `/generate`, `/focus`
  and `/continue` endpoints, the prompts they build, the piece, token and UTF-8
  byte-span bookkeeping of a streamed answer, the request checks, and the message
  store (`Backend.Server.store`).
- `Text` and `Wrappers`: shared helpers.
  - JavaScript `trim` and Python `strip` white space.
  - UTF-8 length and encoding (RFC 3629, section 3).
  - Python slices.
  - Decimal rendering.
  - `Option`.

Things outside the program are parameters:
- The model's completion outputs.
- The saved KV state.
- The clock-derived message and node ids.
- The JSON parser of a stream line.
- The HTTP response.

## Model

| member | source | states |
|---|---|---|
| Graph.CreateNode | frontend/app/types/graph.ts:86-105 | a new node has the given id, parent, question, messages, slot and activation, no children, is not frozen and sits at the origin |
| Graph.GetPathToNode | frontend/app/types/graph.ts:45-56 | the loop with `unshift` returns exactly the root-to-node path PathToNode on an acyclic map |
| Graph.PathLinks | frontend/app/types/graph.ts:45-56 | the path ends at the node, starts at a node with no parent, and each entry is the parent of the next |
| Graph.PathPrefix | frontend/app/types/graph.ts:45-56 | the path to any node on a path is the prefix of that path up to it |
| Graph.PathsStartAtRoot | frontend/app/types/graph.ts:45-56 | in a valid graph every node's path starts at the root |
| Graph.GetNodeDepth | frontend/app/types/graph.ts:72-83 | the depth counted by the loop is the number of parent steps, one less than the path length |
| Graph.ChildRank | frontend/app/types/graph.ts:11-21 | a listed child is strictly lower than its parent, its parent is the node listing it, and its path extends its parent's by itself |
| Graph.GetDescendants | frontend/app/types/graph.ts:30-42 | the recursive collection returns the descendants sequence (children and their descendants, in order) |
| Graph.DescendantsExactly | frontend/app/types/graph.ts:30-42 | a node is a descendant of `id` if and only if it is in the map, differs from `id` and has `id` on its path |
| Graph.DescendantsNoDup | frontend/app/types/graph.ts:30-42 | in a tree no descendant is listed twice and a node is never its own descendant |
| Graph.SubtreeIsDescendants | frontend/app/types/graph.ts:30-42 | the pre-order subtree the layout visits is the node followed by its descendants |
| Graph.InSubtree | frontend/app/types/graph.ts:30-42 | every node whose path passes through `id` is in `id`'s subtree |
| Graph.GetLeafNodes | frontend/app/types/graph.ts:59-69 | the result lists exactly the nodes without children, each once |
| Graph.MapFromEntries | frontend/app/types/graph.ts:117-123 | the rebuilt map's keys are exactly the keys among the entries |
| Graph.SerializeGraphState | frontend/app/types/graph.ts:108-114 | one entry per node, each entry a node of the state under its own id; deserialising gives back the same state |
| Arena.BuildIds | frontend/app/utils/graphLayout.ts:57-92 | the ids of the built layout tree, in pre-order, are the subtree of the root (children missing from the map skipped) |
| Arena.BuildWellFormed | frontend/app/utils/graphLayout.ts:57-92 | the built tree is well formed: each node's children follow it in order, its subtree is an index interval, depths and child numbers agree with the parent |
| Arena.BuildSameTopology | frontend/app/utils/graphLayout.ts:57-92 | the built tree depends only on ids, children and which nodes are present, so writing positions back cannot change it |
| Arena.PresentFromComplete | frontend/app/utils/graphLayout.ts:84-89 | every position whose child id is in the map is among the present positions |
| Arena.BuildChildrenPresent | frontend/app/utils/graphLayout.ts:84-89 | the forEach keeps one tree node per present child position, in order, carrying that child's id and its position as `number`; absent ids are skipped |
| Arena.BuildTreeKids | frontend/app/utils/graphLayout.ts:57-92 | a built node's children are exactly its present child ids, in the order of its children list, numbered by their positions there |
| Layout.IndexOf | frontend/app/utils/graphLayout.ts:275-284 | `indexOf`: -1 exactly when absent, otherwise the first position holding the value |
| Layout.LayoutTree.Parent | frontend/app/utils/graphLayout.ts:289-293 | getParent finds a parent only when parents are recorded, and then it is the node whose children list holds `v` |
| Layout.LayoutTree.LeftSibling | frontend/app/utils/graphLayout.ts:275-284 | with the table as written there is never a left sibling; otherwise a left sibling is an earlier child of the same parent |
| Layout.LayoutTree.LeftSiblingIsPrevious | frontend/app/utils/graphLayout.ts:275-284 | with recorded parents, the left sibling of child k is child k-1, and the first child has none |
| Layout.LayoutTree.NextRight | frontend/app/utils/graphLayout.ts:255-260 | one level down: the last child of an internal node (sharing its subtree end), the thread of a leaf |
| Layout.LayoutTree.NextLeft | frontend/app/utils/graphLayout.ts:265-270 | one level down: the first child of an internal node, the thread of a leaf |
| Layout.LayoutTree.MoveSubtree | frontend/app/utils/graphLayout.ts:211-218 | the right subtree moves by `s` (prelim, mod, shift), the change is split between the two ends, and the sum of the two changes is kept |
| Layout.LayoutTree.ExecuteShifts | frontend/app/utils/graphLayout.ts:223-234 | each child of `v` moves by the shifts of the later children plus the running sum of their changes; nodes that are not children of `v` are unchanged |
| LayoutSums.ShiftLoop | frontend/app/utils/graphLayout.ts:226-233 | the reverse loop over the children applies to child k exactly the accumulated shift and change of the children after it |
| LayoutSums.ShiftsSpread | frontend/app/utils/graphLayout.ts:223-234 | siblings at least one unit apart before the shifts stay at least one unit apart after them |
| Layout.LayoutTree.AncestorOf | frontend/app/utils/graphLayout.ts:239-250 | the result is the default ancestor or, with recorded parents, an earlier sibling of the node |
| Layout.LayoutTree.Apportion | frontend/app/utils/graphLayout.ts:149-206 | returns the default ancestor; only the node's own prelim and shift move, by the same amount; mods, threads and ancestors outside its subtree and changes outside its left siblings are kept; the suffix sums of the siblings' changes never grow; with the table as written nothing changes; with no left sibling, or one whose right contour ends at once, it succeeds and sets no thread |
| Layout.LayoutTree.PlaceLeaf | frontend/app/utils/graphLayout.ts:98-107 | a leaf is placed one unit after its left sibling, or at 0 |
| Layout.LayoutTree.PlaceInternal | frontend/app/utils/graphLayout.ts:119-128 | an internal node is centred over its first and last child: at their midpoint, or one unit after its left sibling with a mod that centres the children |
| Layout.LayoutTree.FirstWalk | frontend/app/utils/graphLayout.ts:97-130 | only the subtree is touched; a node sits one unit after its left sibling, a first leaf at 0, an internal node centred over its children; with recorded parents siblings end at least one unit apart; with the table as written nothing changes; on a flat tree without threads it succeeds and sets none |
| Layout.LayoutTree.ModSumSplit | frontend/app/utils/graphLayout.ts:135-144 | the mods summed from `v` down to a descendant are `v`'s mod plus those summed from the child on the way |
| Layout.LayoutTree.SecondWalk | frontend/app/utils/graphLayout.ts:135-144 | each node of the subtree gets its prelim plus `m` plus the mods of its ancestors from `v`; other nodes keep their y |
| Layout.LayoutTree.Flatten | frontend/app/utils/graphLayout.ts:298-317 | adds one entry per node of the subtree, x from its depth and y from its coordinate, and keeps the other entries |
| Layout.LayoutTree.FlatWhole | frontend/app/utils/graphLayout.ts:298-317 | the flattened map has exactly the tree's ids, x is depth times 300, all y are 0 when every coordinate is, siblings are 150 apart when the coordinates are spread |
| Layout.LayoutTree.Walk | frontend/app/utils/graphLayout.ts:45-46 | after both walks each y is its prelim plus its ancestors' mods; all y are 0 with the table as written; siblings one unit apart with recorded parents; always succeeds on a flat tree (root and leaves) |
| Layout.CalculateTreeLayout | frontend/app/utils/graphLayout.ts:26-52 | empty result for a missing root; otherwise positions for exactly the root's subtree, x = depth x 300; all y 0 as written, siblings at least 150 apart with recorded parents; a result whenever the table is as written or the tree is flat |
| Layout.MinWith | frontend/app/utils/graphLayout.ts:322-338 | `Math.min` against an extended real: at most both arguments, equal to one of them, -Infinity absorbing |
| Layout.MaxWith | frontend/app/utils/graphLayout.ts:322-338 | `Math.max` against an extended real: at least both arguments, equal to one of them, +Infinity absorbing |
| Layout.CalculateBoundingBox | frontend/app/utils/graphLayout.ts:322-338 | the box's bounds are the least and greatest coordinates over all positions (the infinities for an empty map) |
| Layout.ShiftedExtremes | frontend/app/utils/graphLayout.ts:343-353 | shifting every y by the same amount shifts the lowest and highest y by it |
| Layout.CenterTree | frontend/app/utils/graphLayout.ts:343-353 | same ids and x; y differences kept; the y range is symmetric around 0; an empty map is returned unchanged |
| LayoutFinding.StaleParentsCollide | frontend/app/utils/graphLayout.ts:289-293 | with the table as written, two siblings get the same position |
| LayoutFinding.RecordedParentsSeparate | frontend/app/utils/graphLayout.ts:284-305 | with parents recorded before the walks the layout succeeds and the second sibling is at least 150 below the first |
| GraphStore.RootNode | frontend/app/hooks/useGraphState.ts:17 | the initial root is the inactive, childless node "root" asking "Start conversation" |
| GraphStore.Initialized | frontend/app/hooks/useGraphState.ts:15-27 | an empty graph gets the single node "root", active and root; a non-empty graph is left alone |
| GraphStore.InitialGraphValid | frontend/app/hooks/useGraphState.ts:15-27 | the initial graph is a valid tree holding the root node |
| GraphStore.InitializedIdempotent | frontend/app/hooks/useGraphState.ts:15-27 | running the initialisation twice changes nothing more |
| GraphStore.GraphStateHook.InitEffect | frontend/app/hooks/useGraphState.ts:15-27 | the effect's new state is the initialised graph |
| GraphStore.MergePositions | frontend/app/hooks/useGraphState.ts:36-45 | the loop writes every computed position into its node, and reports a change exactly when some node moves |
| GraphStore.MergedAt | frontend/app/hooks/useGraphState.ts:36-45 | a node with a computed position takes it and keeps everything else; other nodes are unchanged |
| GraphStore.MergeSettles | frontend/app/hooks/useGraphState.ts:36-45 | after one write-back nothing moves, so writing again is a no-op |
| GraphStore.MergeSettlesUnmoved | frontend/app/hooks/useGraphState.ts:39-47 | when no node moves the write-back leaves the map as it was, so the effect does not loop |
| GraphStore.MergeKeepsTree | frontend/app/hooks/useGraphState.ts:36-45 | writing positions back keeps a valid tree valid |
| GraphStore.EditsDoNotRetrigger | frontend/app/hooks/useGraphState.ts:55 | edits that keep the node ids and the root do not re-run the layout |
| GraphStore.InsertRetriggers | frontend/app/hooks/useGraphState.ts:55 | inserting a node re-runs the layout |
| GraphStore.GraphStateHook.LayoutEffect | frontend/app/hooks/useGraphState.ts:30-55 | positions are computed only when there are nodes and a root; they cover exactly the root's subtree and are merged in; ids and root are unchanged |
| GraphStore.ActiveNode | frontend/app/hooks/useGraphState.ts:58-60 | the active node exists exactly when a non-empty active id is in the map, and it is that node |
| Animation.Start | frontend/app/components/ChatInterface.tsx:176-181 | starting a branch animation switches to the graph stage with the new and parent ids |
| Animation.Scheduled | frontend/app/hooks/useBranchAnimation.ts:24-74 | a timer is pending exactly when an animation is in a non-idle stage, and it never advances to idle |
| Animation.ScheduledFollowsChain | frontend/app/hooks/useBranchAnimation.ts:24-74 | each stage waits its own delay and then advances to the next stage, the last one resets |
| Animation.ViewAfter | frontend/app/hooks/useBranchAnimation.ts:24-74 | the graph stage shows the graph, the returning stage the focused view, other states keep the view |
| Animation.Fire | frontend/app/hooks/useBranchAnimation.ts:24-74 | an advance timer only changes the stage; the reset timer restores the initial state |
| Animation.Tick | frontend/app/hooks/useBranchAnimation.ts:24-74 | firing the pending timer applies its callback and schedules the timer of the new state |
| Animation.QuietStates | frontend/app/hooks/useBranchAnimation.ts:24-74 | an idle or stopped animation schedules nothing, keeps the view, and time passing changes nothing |
| Animation.BranchChain | frontend/app/hooks/useBranchAnimation.ts:24-74 | a started branch shows the graph, waits 300 ms, and after five timers (3700 ms) is back in the focused view in the initial state |
| Animation.AdvanceKeepsIds | frontend/app/hooks/useBranchAnimation.ts:24-74 | advancing keeps the animating flag and both node ids and sets the stage |
| Animation.BranchAnimationHook.RunEffect | frontend/app/hooks/useBranchAnimation.ts:24-74 | the effect keeps the animation, sets the view for its stage and schedules its timer |
| Animation.Toggle | frontend/app/hooks/useBranchAnimation.ts:77-79 | toggling always changes the view mode |
| Animation.ToggleTwice | frontend/app/hooks/useBranchAnimation.ts:77-79 | toggling twice restores the view mode |
| Animation.BranchAnimationHook.ToggleViewMode | frontend/app/hooks/useBranchAnimation.ts:77-79 | the hook's view mode becomes the toggled one |
| Api.SplitParts | frontend/app/utils/api.ts:53-54 | splitting the buffer gives the complete lines followed by the unterminated rest |
| Api.JoinSplit | frontend/app/utils/api.ts:53-54 | joining the split parts with newlines gives back the buffer |
| Api.LinesAppend | frontend/app/utils/api.ts:48-54 | feeding the body in pieces yields the same lines as feeding it at once, keeping only the leftover between reads |
| Api.ErrorText | frontend/app/utils/api.ts:68 | the error message when present and non-empty, otherwise the JSON of the error |
| Api.HandleLine | frontend/app/utils/api.ts:57-75 | non-data lines are ignored, `[DONE]` signals done and goes on, an error record stops reading, an unparseable payload is skipped |
| Api.ErrorIsLast | frontend/app/utils/api.ts:67-70 | no event follows an error, and reading stops exactly when the last event is an error |
| Api.DispatchAppend | frontend/app/utils/api.ts:56-77 | dispatching two runs of lines is dispatching the first and, unless it stopped, then the second |
| Api.DoneThenChunk | frontend/app/utils/api.ts:59-62 | `[DONE]` does not end the stream: a chunk after it is still delivered |
| Api.UnparseableSkipped | frontend/app/utils/api.ts:73-75 | an unparseable data line produces no event |
| Api.DispatchLines | frontend/app/utils/api.ts:56-77 | the loop over the lines produces the events of Dispatch and stops at the first error |
| Api.StopsForGood | frontend/app/utils/api.ts:48-78 | once an error has been seen in the body read so far, later reads add nothing |
| Api.ReadStream | frontend/app/utils/api.ts:20-82 | the read loop produces the events of the whole body's complete lines, or a single error for a failed request |
| Api.FailedRequestOneError | frontend/app/utils/api.ts:36-43 | a failed fetch, a non-ok status or a missing body gives exactly one event, an error |
| Api.AtMostOneError | frontend/app/utils/api.ts:20-82 | a stream reports at most one error, always as its last event |
| Api.ChatBody | frontend/app/utils/api.ts:30-33 | the completion request carries the messages and `stream: true` |
| Api.BranchBody | frontend/app/utils/api.ts:98-105 | the branch request carries the six named fields in order with their values |
| Chat.Submitted | frontend/app/components/ChatInterface.tsx:55-70 | nothing happens unless the trimmed input is non-empty and no stream runs; a branch request exactly when branching from a node with a slot; a completion otherwise; streaming starts on the submitted node |
| Chat.RegularSubmitted | frontend/app/components/ChatInterface.tsx:73-92 | the user message is appended to the active node (activated); other nodes, the active id and the root are kept; the request holds the node's history plus the message |
| Chat.FrozenNodeTakesMessages | frontend/app/components/ChatInterface.tsx:73-85 | a frozen active node still takes a regular message and stays frozen |
| Chat.RegularKeepsTree | frontend/app/components/ChatInterface.tsx:73-92 | a regular submit keeps the graph a valid tree with the same nodes |
| Chat.FirstQuestion | frontend/app/components/ChatInterface.tsx:55-92 | the first question in a fresh interface goes to the root node and is sent as the whole history |
| Chat.BranchChild | frontend/app/components/ChatInterface.tsx:157 | the new child records its parent and question and holds the question as its only message |
| Chat.BranchSubmitted | frontend/app/components/ChatInterface.tsx:149-206 | without a slot nothing happens; otherwise the parent is frozen and lists the child, the child becomes active, the animation starts, and the branch request carries the slot, selection and question |
| Chat.BranchKeepsTree | frontend/app/components/ChatInterface.tsx:155-173 | adding a fresh child keeps the graph a valid tree, and the new active node exists |
| Chat.BranchRelayouts | frontend/app/components/ChatInterface.tsx:160-173 | a branch inserts a node, so the layout runs again |
| Chat.BranchCancelled | frontend/app/components/ChatInterface.tsx:48-52 | cancelling clears the branch state, the selection and the input and keeps everything else |
| Chat.NodeClicked | frontend/app/components/ChatInterface.tsx:261-274 | the clicked node becomes active (and activated if present), nothing else in the graph changes, and the view mode toggles |
| Chat.WithAnswer | frontend/app/components/ChatInterface.tsx:104-112 | the streamed answer replaces a trailing assistant message or is appended as a new one |
| Chat.WithAnswerTwice | frontend/app/components/ChatInterface.tsx:104-112 | writing an answer and then another equals writing only the second |
| Chat.ChunkOnAnswer | frontend/app/components/ChatInterface.tsx:95-121 | one chunk on a target already ending in the answer so far replaces that answer with the longer text, takes the chunk's slot id when it has one, and leaves every other node and field alone |
| Chat.ChunksExtend | frontend/app/components/ChatInterface.tsx:95-121 | delivering chunks extends the trailing answer by their text, takes the last slot id, and changes no other node or field |
| Chat.StreamedAnswer | frontend/app/components/ChatInterface.tsx:95-121 | from a fresh stream, the chunks leave one new assistant message holding all their text, and other nodes unchanged |
| Chat.ErrorAppendsOne | frontend/app/components/ChatInterface.tsx:126-144 | an error ends streaming and appends one "Error: " message to the target node (if it exists), touching nothing else |
| Chat.MissingTargetUntouched | frontend/app/components/ChatInterface.tsx:101-102 | events for a node no longer in the graph leave the graph unchanged |
| Chat.DeliverKeepsTree | frontend/app/components/ChatInterface.tsx:207-256 | stream events keep the graph a valid tree with the same nodes and active id |
| Chat.DeliverNoRelayout | frontend/app/components/ChatInterface.tsx:207-256 | stream events never re-run the layout |
| Chat.DeliverAppend | frontend/app/components/ChatInterface.tsx:207-256 | delivering two runs of events is delivering one after the other |
| Chat.HelloScenario | frontend/app/components/ChatInterface.tsx:207-256 | the chunks "Hel" and "lo" then done leave the answer "Hello", the chunk's slot id, and streaming off |
| Chat.ChatInterface.Submit | frontend/app/components/ChatInterface.tsx:55-70 | the component's new state and request are those of Submitted |
| Chat.ChatInterface.HandleChunk | frontend/app/components/ChatInterface.tsx:95-121 | the component's new state is that of Chunked |
| Chat.ChatInterface.Consume | frontend/app/components/ChatInterface.tsx:207-256 | consuming events one by one gives the state of Deliver |
| Backend.ParseChatRequest | backend/app.py:41-47 | a request keeps the fields the client sent; a missing `system` is the tutor default and a missing `history` is empty |
| Backend.ParseFocusRequest | backend/app.py:50-55 | a focus request keeps the fields the client sent; a missing `system` is the excerpt-assistant default |
| Backend.GeneratePrompt | backend/app.py:74 | the /generate prompt: system tag, system text, user tag, user text, assistant tag, each at its stated offset |
| Backend.FocusPrompt | backend/app.py:151-156 | the /focus prompt places the system text, the excerpt after the context tag and the follow-up after the user tag |
| Backend.ContinueTurn | backend/app.py:226 | the /continue turn is a user tag, the user text and an assistant tag |
| Backend.KeptPieces | backend/app.py:90-100 | only non-empty pieces are kept, never more than there are outputs |
| Backend.KeptTokens | backend/app.py:90-100 | one token per kept piece |
| Backend.StreamPieces | backend/app.py:83-106 | the streaming loop collects exactly the kept pieces, their tokens, their byte spans and one record per piece |
| Backend.KeptTextIsAll | backend/app.py:109 | skipping empty pieces does not change the stored text: it is the concatenation of all pieces |
| Backend.PrefixBytesIsLength | backend/app.py:96-99 | the running `curr_len` after a number of kept pieces is the UTF-8 byte length of the text they join to |
| Backend.SpansAppend | backend/app.py:94-104 | keeping one more piece appends exactly its span, from the byte count so far to that plus its own byte length, and its record; earlier spans stay as they were |
| Backend.SpanBytes | backend/app.py:97 | the bytes of the stored text inside a piece's span are that piece's UTF-8 encoding |
| Backend.SpansTile | backend/app.py:96-99 | the spans tile the encoded answer from 0 to its length, piece by piece |
| Backend.AnswerText | backend/app.py:108-127 | the stored answer is all pieces joined; the stream ends with a done record carrying it; tokens, spans and piece records agree in number; each piece record is non-empty and carries its span when positions are on |
| Backend.CheckFocus | backend/app.py:138-148 | 404 exactly for an unknown message, 400 exactly for an all-white-space slice, otherwise the stripped non-empty slice |
| Backend.ExcerptInMessage | backend/app.py:146 | the stripped slice, which is what CheckFocus accepts, is a contiguous run of the stored text starting no earlier than the slice's start |
| Backend.CheckContinue | backend/app.py:214-220 | 400 exactly for empty history, 404 exactly for an unknown last entry, otherwise that entry |
| Backend.Server.Complete | backend/app.py:115-127 | the store gains the finished message under its id and the records are those of the answer |
| Backend.Server.Generate | backend/app.py:64-129 | replies with the prompt and the answer's records; stores the answer without a parent; stored parents stay in the store |
| Backend.Server.Focus | backend/app.py:132-207 | a rejected request changes nothing and replies with its status; an accepted one streams without positions and stores the answer under the focused message |
| Backend.Server.Continue | backend/app.py:210-285 | a rejected request changes nothing and replies with its status; an accepted one streams the new turn and stores the answer under the last history entry |
| Text.StripEmptyIff | backend/app.py:146-148 | stripping leaves nothing exactly when every character is white space |
| Text.StripWithin | backend/app.py:146 | what stripping keeps is a contiguous piece of the input |
| Text.Utf8LengthAppend | backend/app.py:97-99 | the byte length of a concatenation is the sum of the byte lengths |
| Text.PySlice | backend/app.py:146 | Python slicing: negative bounds count from the end, bounds are clamped, an empty or reversed range gives "" |

## Left out

- The layout's use of JavaScript `Map` insertion order is not modelled. Maps are Dafny maps, so `getLeafNodes` and `serializeGraphState` return their entries in an unspecified order.
- `Graph.MapFromEntries`: states which keys are present, not which entry wins when a key repeats (`new Map` keeps the last one).
- Floating point: coordinates are reals. There is no rounding, no NaN and no `-0`. The infinities of `Math.min`/`Math.max` are the `Extended` datatype.
- `Layout.LayoutTree.Apportion`: the `ok = false` result models the TypeError of a null `nextRight` in the contour loop (graphLayout.ts:171-173). With the table as written it never happens (proved). With recorded parents it can happen, and the model then returns None from `Layout.CalculateTreeLayout`. An example is G -> [R, Q], R -> r1 -> r2 -> r3 -> r4, Q -> [L, N], L -> l1 -> l2 -> l3, N -> [x, y], y -> y1. Line 160 leaves x without a thread, so Q's right contour stops at y1 and apportion(Q) dereferences null in its fourth round. Success is proved only for flat trees.
- `Layout.LayoutTree.Apportion`: line 160 sets the outer-left contour to the node itself, not to the first sibling. This is modelled as written. Sibling separation by one unit is proved; no claim is made that whole subtrees do not overlap.
- React state batching, stale closures in the stream callbacks, and overlapping streams are left out. Each callback is applied to the current state in order.
- Text selection in the DOM (`useTextSelection`) is left out. The selected text is a field set by `SetSelectedText`.
- The focus, scroll and rendering effects of the components are left out.
- The transport is left out: `fetch`, `TextDecoder`, `JSON.parse`, and the reading of the body in pieces. A response is a datatype; the parser is a function parameter.
- The clock is left out. Node ids (`node-${Date.now()}`) and message ids are parameters, so two requests in the same millisecond are not modelled.
- The language model (`llama_cpp`: tokenize, eval, generate, save_state, load_state) is left out. Its outputs and saved state are parameters.
- Backend.Server.Focus: the KV state is loaded before the excerpt is validated. That side effect is not modelled.
- `created` and `elapsed_ms` are left out. FastAPI routing, CORS and the `_sse`/`json.dumps` framing are left out too: records are a datatype.
- Backend.PieceOf: `choice.get("token", -1)` returns None when the key is present with a null value. The model's `Option` conflates that case with a missing key.
- Backend.Server.Continue: `req.system` is ignored, as in the source.
- Chat.FrozenNodeTakesMessages: a regular submit to a frozen node is accepted, following the code. No check in the component refuses it.

## Findings

| source | as written | input that shows it | evidently intended | confidence | as-written member | corrected member |
|---|---|---|---|---|---|---|
| frontend/app/utils/graphLayout.ts:289-293 | `getParent` reads a module-level `parentMap` that only `flattenPositions` (line 305) fills, after both walks, and it is keyed by tree nodes that each call builds anew. `getLeftSibling` is therefore always null during the walks, so every node gets `y = 0` | a root with two children "a" and "b" | parents recorded as the tree is built, so siblings are spread one unit (150 px) apart | high (not executed) | LayoutFinding.StaleParentsCollide | LayoutFinding.RecordedParentsSeparate |
