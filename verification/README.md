# Verified models of the pyre terminal workspace

These Dafny modules model the parts of pyre where a mistake would be hard to see: the tiling layout that the daemon
and all clients share, the path of a shell command from the prompt hook to the block store, the long-poll for pane
events, the wait for a pane state, the replay buffer, and three smaller algorithms (the fire animation, the git
status parser, the GitHub device flow). `dafny verify dfyconfig.toml` checks all of them.

| module | what it models |
|---|---|
| Arith | fixed-width integers, truncating division |
| LayoutTree, LayoutGeometry, LayoutStrips, LayoutEdits, LayoutWeights, LayoutDrag, LayoutRuns, LayoutFocus | the weighted tree of panes: rectangles, split, close, weight changes, drags, focus moves, and runs of edits |
| LayoutMirror | the browser-side copy of the tree edits |
| RingBuf | the circular replay buffer |
| ShellHooks, Blocks, BlockParser, StreamBlocks, BlockStore, Pipeline | bash hooks, OSC 133 markers, the block parser and the blocks of any stream, the persistence task, and all of it composed |
| EventOrder, EventPoll, EventEmission, EventExamples, EventSubscriber | ring, broadcast and cursor client of the pane-event long-poll, with emissions that may overtake each other |
| PaneWatch | the state tracker of a pane and the call that waits for a state |
| FireHeat | the heat buffer of the start-up animation |
| GitPorcelain | the parser of `git status --porcelain=v1 --branch` |
| DeviceFlow | the polling loop of section 3.5 of RFC 8628 |

How the source's form is kept: the objects of the source are classes whose methods update the same fields (`RingBuf`,
`BlockMachine`, `PaneStateTracker`, `GitHubLink`, `Window`, `BashHooks`, the store); in-place array code works on
arrays; loops are loops with invariants. Each such method is proved equal to a step of a specification function, and the
lemmas speak about runs of those steps. What a step does is also stated in coordinates, bytes, times and numbers
(`LayoutStrips.ChildStrip`, `LayoutDrag.DragFollowsMouse`, `StreamBlocks.BlockOfStream`, `PaneWatch.IdleIff`,
`DeviceFlow.RefusalEnds`, `FireHeat.SweptLaw`), so that the laws do not rest on the definitions of the steps alone.
Asynchronous code is cut at its awaits, so that any other step can happen in between.

## Where code and documentation disagree

The code is followed in each case.

- `set_weight_inner` is documented to change the weight in the direct parent split of the pane
  (crates/pyre-proto/src/layout.rs:291-293). The code acts on the outermost split whose child has the pane anywhere
  below it, and its recursion can never find anything (`LayoutWeights.OutermostOnly`).
- `apply_weights_for_pair` says that the two panes must be adjacent (crates/pyre-gpu/src/main.rs:1215-1217). The code
  takes any two direct leaf children of one split (`LayoutDrag.DragAnywhere`), also the outer two of three
  (`LayoutDrag.OuterPanesCanBeDragged`).
- `next_pane_event` says that ring drain and subscription are one atomic step, so that no event can slip through
  (crates/pyred/src/server.rs:575-576), and `emit_event` that no event is permanently lost
  (crates/pyred/src/session.rs:256-258). Numbering, appending and broadcasting an event are three separate steps of
  each emitter, several emitters run at once, and subscribing and draining are two steps. A client that never lags can
  get 2, 1, 2 (`EventExamples.OvertakingCanRepeat`) or never get event 1 (`EventExamples.OvertakingCanLose`), and a lag
  can repeat an event even when emissions keep their order (`EventExamples.LagCanRepeat`). When exactly the client gets
  the published prefix, an increasing log, or a given event, is `EventPoll.ExactlyThePrefix`,
  `EventPoll.IncreasingIff` and `EventPoll.LostIff`; `EventEmission` says what remains of these conditions when
  emissions do not overtake each other.
- `wait_pane_state` is said to return true if the state is reached (crates/pyre-proto/src/service.rs:190). It does if and
  only if the call sees the state when it is made or at one of its looks (`PaneWatch.TrueIff`); a state that comes and
  goes in between is missed (`PaneWatch.TransientCanBeMissed`).
- `removeLeaf` of the browser is said to mirror the daemon (gui/src/mock-invoke.ts:166). It does exactly on trees in
  which every split has a pane besides the removed one (`LayoutMirror.RemoveLeafRefines`); elsewhere the daemon keeps
  an empty split.
- The bash hooks are commented to mark only the genuine user command, and no trap that fires for an entry of
  PROMPT_COMMAND (crates/pyre-proto/src/shell_integration.rs:40-53, 63-66, 83-87). What they mark is the first trap since
  the last prompt, outside completions and subshells, whatever it fires for (`ShellHooks.MarkedIff`). When the user
  enters an empty line, that is the trap for the first entry of PROMPT_COMMAND: the hooks emit A, C, D, A, and the drawn
  prompt becomes the command of a block (`ShellHooks.EmptyLineIsMarked`). The marker grammar holds all the same.
- The git parser is to report the upstream of a branch. It does if and only if the branch has commits or no upstream: in
  a fresh clone of an empty repository the header is `No commits yet on main...origin/main [gone]`, and all of it after
  "on" is taken for the branch name (crates/pyred/src/git.rs:49-51; `GitPorcelain.HeadRoundTrip`,
  `GitPorcelain.EmptyCloneIsMisread`).
- Rule 1 of `evaluate` reports a dead process as crashed when the last marker is a D with a non-zero code. Bash draws a
  prompt right after each D, so once a stream of whole hook firings has been read its last marker is never a D, and
  such a pane is reported as done whatever its exit code (`Pipeline.DeadBashPaneIsDone`).

## Model

| member | source | states |
|---|---|---|
| LayoutGeometry.LeavesInner | crates/pyre-proto/src/layout.rs:206-244 | the two accumulating loops compute the recursive placement that the geometry lemmas speak about |
| LayoutGeometry.LeavesKeepOrder | crates/pyre-proto/src/layout.rs:94-97 | for every tree and viewport the placed panes are those of `all_leaves`, in the same order |
| LayoutGeometry.RectForIff | crates/pyre-proto/src/layout.rs:84-92 | a rectangle is found exactly for the panes of the tree, and it is that of the first occurrence, on every tree |
| LayoutStrips.ChildStrip | crates/pyre-proto/src/layout.rs:206-244 | for every split and child i, in weights and coordinates: the leaves below it are those placed in the strip that starts after the floored lengths of the children before it and is floor(extent * w_i / max(total, 1)) long, they lie inside it, and a child that is one pane is exactly the strip |
| LayoutStrips.PanesOfSplit | crates/pyre-proto/src/layout.rs:197-204 | the panes of a split are those of the children before i, of child i, and of those after it |
| LayoutStrips.SeventyThirty | crates/pyre-proto/src/layout.rs:226-242 | weights 70 and 30 side by side in 100 by 50 give widths 70 and 30 |
| LayoutGeometry.LeavesGeometry | crates/pyre-proto/src/layout.rs:197-244 | every rectangle lies in the viewport, and of two leaves the earlier one ends before the later one begins along x or along y, so they are disjoint; for any tree, weights and viewport |
| LayoutGeometry.AreaBound | crates/pyre-proto/src/layout.rs:206-244 | rounding leaves uncovered at most one strip of the longer side per leaf after the first, on every tree whose splits are non-empty with positive total weight |
| LayoutGeometry.SizeBound | crates/pyre-proto/src/layout.rs:206-244 | when each child has a twentieth of its split's weight, a leaf below d splits of an orientation keeps at least the floor of the extent over 20^d, in spite of nested rounding |
| LayoutGeometry.CoverageOfWindows | crates/pyre-proto/src/layout.rs:206-244 | both bounds hold of every window layout |
| LayoutEdits.SplitFocusedInner | crates/pyre-proto/src/layout.rs:247-271 | the split done step by step, with the early exit at the first modified child, is the function that the laws below relate |
| LayoutEdits.SplitChildren | crates/pyre-proto/src/layout.rs:263-268 | the child loop replaces the first child that was modified and leaves the others untouched |
| LayoutEdits.SplitInsertsAfter | crates/pyre-proto/src/layout.rs:99-104 | a split inserts the new pane right after the first occurrence of the focused one and moves nothing else; it reports success exactly when that pane is present, and otherwise changes nothing |
| LayoutEdits.SplitLaw | crates/pyre-proto/src/layout.rs:247-271 | the focused leaf becomes a split of the requested orientation with itself and the new pane at 50 each; every split on the way keeps its orientation and weights, and all its children but the first that has the pane below it |
| LayoutEdits.RemoveLeafInner | crates/pyre-proto/src/layout.rs:276-289 | retain and collapse, child by child, compute the removal function |
| LayoutEdits.RemoveFilters | crates/pyre-proto/src/layout.rs:276-289 | removal filters the leaf sequence and keeps its order, on every tree |
| LayoutEdits.RemoveOnWindow | crates/pyre-proto/src/layout.rs:276-289 | on a window layout the sibling of the removed pane takes the place of their split; every split above keeps its orientation, weights and other child |
| LayoutEdits.RemoveAbsent | crates/pyre-proto/src/layout.rs:276-289 | removing an absent pane leaves the tree alone if and only if it has no single-child split |
| LayoutEdits.SplitThenRemove | crates/pyre-proto/src/layout.rs:247-289 | removing the pane just added restores the tree if and only if it has no single-child split |
| LayoutEdits.CloseLaw | crates/pyre-proto/src/layout.rs:106-132 | `close` removes that pane only, keeps the order and gives the focus to the predecessor, or to the first remaining pane when the first was closed; it answers None, with the tree unchanged, exactly when the pane is absent or alone |
| LayoutEdits.SplitCloseRoundTrip | crates/pyre-proto/src/layout.rs:102-132 | closing the pane just added returns the focus to the pane that was split, and restores the tree if and only if it has no single-child split |
| LayoutEdits.WindowRoundTrip | crates/pyre-proto/src/layout.rs:102-132 | on every window layout, closing the pane just added restores the layout and returns the focus to the pane that was split |
| LayoutEdits.RoundTripFailsOnSingleton | crates/pyre-proto/src/layout.rs:282-285 | a concrete tree with a single-child split that is not restored |
| LayoutEdits.SplitKeepsGood | crates/pyre-proto/src/layout.rs:247-271 | a split with a fresh pane keeps distinct panes, binary splits and balanced weights |
| LayoutEdits.CloseKeepsGood | crates/pyre-proto/src/layout.rs:110-132 | so does a close, because binary splits collapse |
| LayoutWeights.RebalanceInPlace | crates/pyre-proto/src/layout.rs:304-354 | the in-place rebalancing of one split ends with the weights of the function that `RebalanceGuarantee` is about |
| LayoutWeights.SettleInPlace | crates/pyre-proto/src/layout.rs:310-342 | the same for the part up to the leftover pass |
| LayoutWeights.SpreadInPlace | crates/pyre-proto/src/layout.rs:322-331 | every sibling takes its clamped truncated share, and the leftover is what the sum still lacks |
| LayoutWeights.SiblingTotal | crates/pyre-proto/src/layout.rs:314-319 | the sibling total is the sum of all weights less the target's |
| LayoutWeights.GainBounds | crates/pyre-proto/src/layout.rs:322-331 | truncated and clamped shares together never exceed the amount to distribute, and never have the wrong sign |
| LayoutWeights.RebalanceGuarantee | crates/pyre-proto/src/layout.rs:186-193 | for every split whose weights are at least 5 and sum to 100 and every request: the new weights sum to 100 and lie in [5, 95]; a shrink lands on the clamped request; a growth lands between the old weight and it, short by exactly what the last sibling cannot give up; no sibling moves the same way as the target |
| LayoutWeights.GrowthLandsAt | crates/pyre-proto/src/layout.rs:321-352 | in the weights before the call: a growth lands on the clamped request if and only if that and what the siblings other than the last keep, each its weight less its share rounded down but at least 5, add up to at most 95; otherwise the target gets 95 less what they keep |
| LayoutWeights.TargetOfAnySplit | crates/pyre-proto/src/layout.rs:303-352 | on every split, balanced or not: a request for the weight that is there changes nothing; otherwise the target ends at the clamped request plus what the sum with it lacks of 100, held in [5, 95] |
| LayoutWeights.WeightlessSiblingsStay | crates/pyre-proto/src/layout.rs:314-321 | siblings that together weigh nothing keep their weights |
| LayoutWeights.SiblingsOfAnySplit | crates/pyre-proto/src/layout.rs:310-342 | on every split: the last sibling makes up for what rounding and clamping left, so that the total is kept unless it stops at 5 or 95 itself; the others take their share |
| LayoutWeights.NewWeightShared | crates/pyre-proto/src/layout.rs:327-330 | a share is the exact proportion rounded toward zero, and the new weight is held in [5, 95] |
| LayoutWeights.SharesAreProportional | crates/pyre-proto/src/layout.rs:186-190 | every sibling but the last moves by its proportional share rounded toward zero, or stops at 5; when the target shrinks the last one gets its share and at most one unit per sibling more |
| LayoutWeights.TwoWayIsExact | crates/pyre-proto/src/layout.rs:304-354 | with two children every request lands exactly |
| LayoutWeights.ThreeWayCanFallShort | crates/pyre-proto/src/layout.rs:333-352 | weights 10, 85, 5 and a request of 95 for the first end as 90, 5, 5 |
| LayoutWeights.FeasibleRequestCanFallShort | crates/pyre-proto/src/layout.rs:333-352 | weights 10, 40, 45, 5 and a request of 50 for the first, which the others could meet, end with 47 |
| LayoutWeights.SetWeight | crates/pyre-proto/src/layout.rs:294-366 | the tree walk with its in-place rebalancing equals the function of `OutermostOnly` |
| LayoutWeights.SetWeightChildren | crates/pyre-proto/src/layout.rs:357-363 | the recursive loop stops at the first success and keeps the other children |
| LayoutWeights.OutermostOnly | crates/pyre-proto/src/layout.rs:294-366 | only the root's weights change, in the child that holds the pane at whatever depth; shape and subtrees stay; without the pane, or on a leaf, nothing changes |
| LayoutWeights.SetWeightOnWindow | crates/pyre-proto/src/layout.rs:191-193 | on a window layout the root ends with the clamped request and its complement, everything else as before |
| LayoutWeights.ApplyWeightsForPair | crates/pyre-gpu/src/main.rs:1218-1256 | the search loop for both leaves and the recursion equal the function that `DragOnWindow` is about |
| LayoutWeights.ApplyPairChildren | crates/pyre-gpu/src/main.rs:1247-1253 | the recursion stops at the first split that held both panes |
| LayoutWeights.DragOnWindow | crates/pyre-gpu/src/main.rs:921-936 | complementary clamped weights keep shape, binary splits and balanced weights, wherever the pair is or is not found |
| LayoutDrag.DragChanges | crates/pyre-gpu/src/main.rs:1215-1256 | on a window layout a drag finds its pair if and only if some split has exactly these two panes as its children; then these two get the two new weights, and every other weight and the whole tree stay |
| LayoutDrag.DragFollowsMouse | crates/pyre-gpu/src/main.rs:921-936 | on a window layout whose pair is side by side the front pane ends at start + percent if that lies in [5, 95], at 5 below and at 95 above, the other one at the rest of 100; every other slot stays |
| LayoutDrag.DragAnywhere | crates/pyre-gpu/src/main.rs:1218-1256 | on every tree and for all weights: a drag finds its pair if and only if both panes are direct children of one split, adjacent or not; in the first such split, depth first, the last child that is each pane gets its new weight, and every other weight of every split and the tree stay |
| LayoutDrag.OuterPanesCanBeDragged | crates/pyre-gpu/src/main.rs:1228-1246 | a split of three in which the outer two panes are dragged; its weights then sum to 140 |
| LayoutRuns.ApplyKeepsGood | crates/pyre-proto/src/layout.rs:81-193 | each single edit keeps the window invariant |
| LayoutRuns.ReachableIsGood | crates/pyre-proto/src/layout.rs:9-16 | every layout reachable from one pane by splits, closes, weight requests and drags has distinct panes, two children per split, and weights in [5, 95] that sum to 100 |
| LayoutRuns.RunKeepsGood | crates/pyre-proto/src/layout.rs:9-16 | the same from any layout that already satisfies the invariant |
| LayoutRuns.Window.constructor | crates/pyre-proto/src/layout.rs:9-16 | a new window is one pane and satisfies the invariant |
| LayoutRuns.Window.SplitFocused | crates/pyre-proto/src/layout.rs:102-104 | the new leaf order, and that the invariant survives a fresh pane |
| LayoutRuns.Window.ClosePane | crates/pyre-proto/src/layout.rs:110-132 | the new layout and focus; afterwards the pane is gone unless it is the only one |
| LayoutRuns.Window.SetPaneWeight | crates/pyre-proto/src/layout.rs:191-193 | the new layout, with the same shape and the invariant kept |
| LayoutRuns.Window.ApplyDragWeights | crates/pyre-gpu/src/main.rs:921-936 | after any mouse movement the front pane of the pair has start + percent, held in [5, 95], the other one the rest of 100, and every other slot its old weight; shape and invariant are kept |
| LayoutFocus.FocusDirLaw | crates/pyre-proto/src/layout.rs:134-184 | the answer lies wholly beyond the edge and is nearest, by Manhattan distance of centres, among all panes that do, and the first of several equally near ones in leaf order; there is no answer exactly when no pane does |
| LayoutFocus.FocusInCoordinates | crates/pyre-proto/src/layout.rs:138-184 | the same in the coordinates of the 1000 by 1000 viewport, for each of the four directions |
| LayoutFocus.SomeDirectionQualifies | crates/pyre-proto/src/layout.rs:151-165 | every other pane is a candidate in at least one direction |
| LayoutFocus.NoNeighbourMeansAlone | crates/pyre-proto/src/layout.rs:167-169 | no answer in all four directions if and only if the pane is alone |
| LayoutFocus.MovesCanBeReversed | crates/pyre-proto/src/layout.rs:138-184 | after a move the opposite move is always possible |
| LayoutMirror.SplitLeafRefines | gui/src/mock-invoke.ts:144-164 | the browser's split agrees with the daemon's, weights included, if and only if the focused pane occurs at most once |
| LayoutMirror.SplitsDifferOnRepeatedPane | gui/src/mock-invoke.ts:144-164 | a tree with the focused pane twice, on which the browser ends with four panes and the daemon with three |
| LayoutMirror.RemoveLeafLoop | gui/src/mock-invoke.ts:167-184 | the loop that pushes survivors and their weights onto two arrays computes the removal function |
| LayoutMirror.MissingWeightsAreFifty | gui/src/mock-invoke.ts:167-184 | a split without weights is treated as if every child had 50 |
| LayoutMirror.RemoveLeafRefines | gui/src/mock-invoke.ts:166-184 | the browser's removal agrees with the daemon's if and only if every split has a pane besides the removed one |
| LayoutMirror.RemovalsDifferOnSoleChild | gui/src/mock-invoke.ts:166-184 | a split whose only child is removed, which leaves null in the browser and a split without children in the daemon |
| LayoutMirror.MirrorRefinesDaemon | gui/src/mock-invoke.ts:144-184 | on trees with distinct panes and two or more children per split both agree, and null is returned exactly for the sole leaf |
| RingBuf.RingBuf.constructor | crates/pyred/src/ringbuf.rs:21-28 | a new buffer holds the tail of the empty stream |
| RingBuf.RingBuf.Push | crates/pyred/src/ringbuf.rs:34-56 | after pushes of any sizes, longer than the capacity or empty, the contents are the last bytes of everything pushed |
| RingBuf.RingBuf.WriteAll | crates/pyred/src/ringbuf.rs:46-55 | the byte loop keeps the last `cap` bytes of contents and input |
| RingBuf.RingBuf.PushByte | crates/pyred/src/ringbuf.rs:47-54 | one wrapped write appends a byte and drops the oldest one when the buffer is full |
| RingBuf.RingBuf.Snapshot | crates/pyred/src/ringbuf.rs:63-75 | the replay is the last min(cap, total) bytes of the stream, oldest first |
| RingBuf.WriteSlides | crates/pyred/src/ringbuf.rs:46-55 | writing at the wrapped position is an append, or an append and drop when full |
| RingBuf.TailOfTails | crates/pyred/src/ringbuf.rs:39-44 | truncating an oversized push first does not change which bytes are last |
| RingBuf.TailLaw | crates/pyred/src/ringbuf.rs:30-44 | the tail is a suffix of the stream: all of it when it fits, and as long as fits otherwise |
| RingBuf.ReplayOf | crates/pyred/src/ringbuf.rs:30-75 | the replay depends on the bytes pushed and not on how they were cut into pushes |
| BlockParser.BlockMachine.constructor | crates/pyred/src/parser.rs:33-42 | the initial state, with nothing consumed or emitted |
| BlockParser.TrimEndLaw | crates/pyred/src/parser.rs:94-96 | the command is a prefix of the captured text; its last byte is not 9 to 13 or 32, and every byte cut off is |
| BlockParser.StepEmits | crates/pyred/src/parser.rs:45-127 | which events each byte, marker and end of a read adds, in order: a chunk at a line end, at the 4096th buffered byte, and before a prompt, an end or a cut |
| BlockParser.BufferStaysSmall | crates/pyred/src/parser.rs:54-63 | over every run the buffer is shorter than 4096 bytes, holds no line end, and is empty while no block is open |
| BlockParser.BlockMachine.FlushOutput | crates/pyred/src/parser.rs:44-52 | buffered text of an open block becomes one chunk |
| BlockParser.BlockMachine.PushByte | crates/pyred/src/parser.rs:54-63 | the whole new state after a byte, in and outside a block |
| BlockParser.BlockMachine.OscDispatch | crates/pyred/src/parser.rs:78-117 | the whole new state after a marker; the command that a C starts is the captured text without the white space at its end |
| BlockParser.BlockMachine.Perform | crates/pyred/src/parser.rs:66-118 | the machine is always the result of the inputs so far, whatever was handed out in between |
| BlockParser.BlockMachine.Feed | crates/pyred/src/parser.rs:133-138 | a read appends to the events handed out, leaves nothing pending and ends in a flush |
| BlockParser.BlockMachine.HandOut | crates/pyred/src/parser.rs:135-137 | the flush and the hand-over at the end of a read lose and repeat nothing |
| BlockParser.RunAgrees | crates/pyred/src/parser.rs:44-117 | after any tokens and flushes, buffers and events agree with the unbuffered reading of the stream |
| BlockParser.ChunkingIndependence | crates/pyred/src/parser.rs:44-64 | however a stream is cut into reads, prompts, commands and ends are the same, and the concatenated output is exactly the text seen while a block was open |
| BlockParser.AttributionIff | crates/pyred/src/parser.rs:93-106 | every block is given its own text if and only if each C finds the output buffer empty; otherwise some block has lost text for good |
| BlockParser.BlockByBlock | crates/pyred/src/parser.rs:78-117 | when no C arrives with a block open, each block has its own text, command and end, in every cut |
| StreamBlocks.BlockOfStream | crates/pyred/src/parser.rs:45-127 | on every stream, a prompt, what is shown at it, a C and what follows up to the next marker are one block: the command is the text shown at the prompt without zero bytes and trailing white space, the text all that was shown after the C, and the end that of the next marker if it is a D |
| StreamBlocks.NumberedByC | crates/pyred/src/parser.rs:94-110 | every C opens one block, and without a prompt the command is empty |
| BlockParser.TextCanMoveAcrossC | crates/pyred/src/parser.rs:93-106 | a concrete stream on which C, A byte, C gives the byte to the wrong block |
| ShellHooks.BashHooks.constructor | crates/pyre-proto/src/shell_integration.rs:63-71 | both flags start cleared |
| ShellHooks.BashHooks.PromptCmd | crates/pyre-proto/src/shell_integration.rs:73-89 | flags and markers after the prompt hook |
| ShellHooks.BashHooks.PreExec | crates/pyre-proto/src/shell_integration.rs:91-103 | flags and markers after the DEBUG trap, with its three guards |
| ShellHooks.MarkersFollowGrammar | crates/pyre-proto/src/shell_integration.rs:38-53 | for every interleaving of prompts and traps the markers are a prefix of a word of A(A or C D A)* |
| ShellHooks.BashIsOrderly | crates/pyre-proto/src/shell_integration.rs:63-115 | the parser never sees C with a block open, every D finds one, and the flags equal the parser's view at all times |
| ShellHooks.AtPromptIff | crates/pyre-proto/src/shell_integration.rs:63-67 | the sentinel is set exactly while a prompt has been drawn and no trap has fired since, outside completions and subshells |
| ShellHooks.MarkedIff | crates/pyre-proto/src/shell_integration.rs:40-53 | a hook firing emits C if and only if it is a trap outside completions and subshells, and the first such trap since the last prompt |
| ShellHooks.EmptyLineIsMarked | crates/pyre-proto/src/shell_integration.rs:83-103 | Enter on an empty line: a prompt, the trap for the call of the prompt hook, the next prompt; the markers are A, C, D, A and the drawn prompt becomes the command of a block |
| ShellHooks.CommandStarts | crates/pyre-proto/src/shell_integration.rs:91-103 | the first trap after a prompt opens one new block with all the text shown since the A marker, which includes the drawing of the prompt itself |
| ShellHooks.CommandRuns | crates/pyre-proto/src/shell_integration.rs:91-103 | until the next prompt no trap opens another block, and the open one collects exactly what is shown |
| ShellHooks.OneCommandOneBlock | crates/pyre-proto/src/shell_integration.rs:73-103 | in every run, a command is one block with the text shown at its prompt since the A marker, without zero bytes and the white space (9 to 13 and 32) at its end, its output and the exit code of the prompt that follows, whatever happens later |
| ShellHooks.NeverEndsWithBlockEnd | crates/pyre-proto/src/shell_integration.rs:73-89 | the last boundary bash leaves is never the end of a block |
| BlockStore.ParserTask | crates/pyred/src/pty.rs:348-510 | for every stream, cut and set of blocks whose row or blob cannot be created: rows, blobs, finalisations and index entries of each block at the end |
| BlockStore.HandleAll | crates/pyred/src/pty.rs:359-496 | the loop over the events of a read continues the same run of the parser task |
| BlockStore.HandleEvent | crates/pyred/src/pty.rs:387-495 | the new maps and store after each kind of event, with refused rows and blobs that cannot be opened |
| BlockStore.Drain | crates/pyred/src/pty.rs:498-509 | in whatever order the map is drained, every block still open is closed and finalised once, and no other |
| BlockStore.PersistTracks | crates/pyred/src/pty.rs:387-495 | after any well-formed events, for every block: which map holds it, that its blob is the concatenation of its chunks, its index buffer the first 256 KiB of that, and what was finalised and indexed |
| BlockStore.KeySetsAgree | crates/pyred/src/pty.rs:350-354 | buffer and metadata maps always have equal keys; the writer map has the same ones if and only if no open block failed to open its blob |
| BlockStore.DrainStores | crates/pyred/src/pty.rs:498-509 | what the store holds of every block after the drain |
| BlockStore.FinalisedOnceIff | crates/pyred/src/pty.rs:466-509 | after any well-formed events, with any rows refused and any blobs not opened, and the drain: a block is finalised at most once, and exactly once if and only if its end was seen or it had both row and blob |
| Pipeline.EveryBlockFinalisedOnce | crates/pyred/src/pty.rs:348-510 | with a working store every block of any stream is finalised exactly once, and no unknown one |
| Pipeline.CommandsReachTheStore | crates/pyred/src/pty.rs:348-510 | a command run at a bash prompt ends as one row with the text shown at the prompt, trimmed at its end, one blob with exactly its output, one index entry, and one finalisation with its exit code, however the terminal output is cut |
| Pipeline.UnfinishedCommands | crates/pyred/src/pty.rs:498-509 | a command still running at shutdown has its whole output stored and is finalised once, without exit code or index entry |
| Pipeline.PersistBashPane | crates/pyred/src/pty.rs:348-510 | the parser task of a bash pane ends with all of this in the store, for every command of every run of the shell and every cut, and with every block finalised exactly once |
| Pipeline.DeadBashPaneIsDone | crates/pyred/src/state.rs:165-182 | with the bash hooks, a pane whose process is gone and whose output has been read is reported as done and not as crashed, whatever the last exit code |
| EventPoll.RunKeepsInv | crates/pyred/src/session.rs:231-260 | over every run each event reaches the ring and the channel at most once, numbered first and appended before it is broadcast; the client only ever has appended events, and a batch being collected is what its drain found followed by a stretch of the broadcasts |
| EventPoll.ExactlyThePrefix | crates/pyre-proto/src/service.rs:204-213 | over every run, with appends and broadcasts in any order, lags, timeouts, lost replies and coalescing: the client has each published event up to its cursor once and in order if and only if no batch was read past an unread event (overtaken on its way, gone from the ring, or broadcast before the receiver listened) and none received again what its drain had found |
| EventPoll.IncreasingIff | crates/pyred/src/server.rs:588-625 | over every run the log is strictly increasing, and so free of duplicates, if and only if no batch was read with an event behind a later one, among the drained, among the received, or between the two |
| EventPoll.DeliveredIff | crates/pyred/src/session.rs:256-281 | over every run the client has an event if and only if some batch was handed over, with the event after the cursor, that was read where the event stood: among the last 256 appends at its drain, or among the broadcasts received |
| EventPoll.LostIff | crates/pyred/src/session.rs:256-281 | over every run an event up to the cursor is missing from the log if and only if some batch moved the cursor past it while it stood neither where that batch nor where any earlier one was read |
| EventPoll.LostForEver | crates/pyred/src/session.rs:265-281 | what the cursor has passed is not delivered in any continuation |
| EventEmission.OrderedDelivery | crates/pyre-proto/src/service.rs:204-213 | under the hypothesis that no emission overtakes another: the log increases if and only if no drain after a lag found an event not yet broadcast at the re-subscription that was then received, too; it is the published prefix if and only if, besides, no batch was drained with more than 256 unread events appended; without such an overrun nothing is lost |
| EventEmission.SerialDelivery | crates/pyre-proto/src/service.rs:204-213 | under the hypothesis that each emission is complete before the next one is numbered: exactly the published prefix if and only if no batch was drained after unread events had left the ring |
| EventEmission.KeepingUpMissesNothing | crates/pyred/src/session.rs:194-196 | a client that never has more than 256 unread events appended misses none if no emission overtakes another, and has exactly the published prefix if each is complete before the next one is numbered |
| EventExamples.OvertakingCanRepeat | crates/pyred/src/session.rs:238-259 | a run without lag and with two events on which the client gets 2, 1, 2 |
| EventExamples.OvertakingCanLose | crates/pyred/src/session.rs:238-259 | a run without lag and with two events after which no continuation delivers event 1 |
| EventExamples.LagCanRepeat | crates/pyred/src/server.rs:596-604 | a run of a client that keeps up, without overtaking, on which an event is delivered twice |
| EventSubscriber.UnreadAtOnce | crates/pyred/src/server.rs:575-580 | a call that finds unread events in the ring hands over all of them, in ring order, and ends |
| EventSubscriber.FirstBroadcastIsDelivered | crates/pyred/src/server.rs:573-625 | the first event that is broadcast after the call took its receiver wakes it and is the first one in its answer, also when it was broadcast before the drain |
| EventSubscriber.CollectedIsDelivered | crates/pyred/src/server.rs:616-625 | whatever the emitters do, what has been collected is handed over, perhaps with more behind it |
| EventSubscriber.Drains | crates/pyred/src/server.rs:575-580 | the drain hands over what the ring has after the cursor, or the call waits from where its receiver was taken |
| EventSubscriber.Looks | crates/pyred/src/server.rs:590-606 | a waiting call takes a later event, skips a stale one, and renews its receiver when it is more than 256 behind |
| EventSubscriber.LooksAgain | crates/pyred/src/server.rs:619-622 | a collecting call adds a later event, and ends on a stale one or when it is more than 256 behind |
| EventSubscriber.QuietCallCatchesUp | crates/pyred/src/server.rs:569-626 | after a call during which nothing is emitted, and with emissions in number order so far, the cursor is the last published event |
| EventSubscriber.EventBus.constructor | crates/pyred/src/session.rs:210-219 | an empty ring, nothing numbered or broadcast |
| EventSubscriber.EventBus.PushEvent | crates/pyred/src/session.rs:246-255 | the ring is always the last 256 events in the order of their append |
| EventSubscriber.EventBus.Emit | crates/pyred/src/session.rs:231-260 | one step of any emitter, numbering, appending or broadcasting, in any order between emitters |
| EventSubscriber.EventBus.EmitAll | crates/pyred/src/session.rs:231-260 | any sequence of such steps |
| EventSubscriber.EventBus.History | crates/pyred/src/session.rs:265-281 | the drain returns the events after the cursor that are in the ring, in ring order |
| EventSubscriber.NextPaneEvent | crates/pyred/src/server.rs:569-626 | for everything the emitters may do at each await point, the call ends in the one state that the step system prescribes for it, with the batch handed over there |
| EventSubscriber.CallAndDrain | crates/pyred/src/server.rs:575-580 | receiver first, then the ring, with emissions in between |
| EventSubscriber.AwaitFirst | crates/pyred/src/server.rs:588-614 | the loop for the first event ends in the prescribed state, with the first event or without any |
| EventSubscriber.Wake | crates/pyred/src/server.rs:590-606 | one turn of it: a new event, a stale one, or a lag |
| EventSubscriber.Recover | crates/pyred/src/server.rs:596-604 | the lagged arm: new receiver, then the ring |
| EventSubscriber.Coalesce | crates/pyred/src/server.rs:616-625 | the batch grows until the short timer, a lag or a stale event, as prescribed |
| EventSubscriber.Take | crates/pyred/src/server.rs:619-622 | one turn of it: the event is added, or the batch is done |
| EventSubscriber.SubscribeLoop | crates/pyre-mcp/src/main.rs:484-534 | for everything the emitters may do and every sequence of answered, impossible and failed calls: log and cursor are those of the prescribed run, with the exact conditions for a prefix and for an increasing log, and the waiting time doubles from 100 ms to 5 s with each failure in a row |
| EventSubscriber.TakeTurn | crates/pyre-mcp/src/main.rs:491-532 | one turn: a batch moves the cursor to its last event, a failure leaves it alone |
| EventSubscriber.SessionLaw | crates/pyre-mcp/src/main.rs:491-532 | turn by turn: an answered call starts from the client's cursor, and an impossible or failed one leaves log and cursor alone |
| EventSubscriber.BackoffLaw | crates/pyre-mcp/src/main.rs:484-534 | the waiting times are 100, 200, 400, 800, 1600 and 3200 ms, then 5 s |
| EventSubscriber.FailuresLaw | crates/pyre-mcp/src/main.rs:484-534 | the failures that count are the turns at the end of the session that were not answered |
| PaneWatch.PaneStateTracker.constructor | crates/pyred/src/state.rs:102-120 | the initial tracker, running and seen |
| PaneWatch.PaneStateTracker.TouchOutput | crates/pyred/src/state.rs:122-125 | only the time of the last output changes |
| PaneWatch.PaneStateTracker.PushMarker | crates/pyred/src/state.rs:127-133 | the marker is remembered, a D with its time |
| PaneWatch.PaneStateTracker.SetOverride | crates/pyred/src/state.rs:135-140 | the override and its expiry |
| PaneWatch.PaneStateTracker.MarkSeen | crates/pyred/src/state.rs:258-260 | only the seen flag changes |
| PaneWatch.PaneStateTracker.Apply | crates/pyred/src/state.rs:241-252 | state and channel change together, and the answer tells whether they did |
| PaneWatch.PaneStateTracker.Evaluate | crates/pyred/src/state.rs:142-239 | overrides first, expired ones dropped, then the rules; the answer tells whether the state changed |
| PaneWatch.PaneStateTracker.Judge | crates/pyred/src/state.rs:162-238 | the rules in the order of the source |
| PaneWatch.WatchFollowsState | crates/pyred/src/state.rs:241-256 | over every run the channel holds the state of the tracker, and its version only moves when the state does |
| PaneWatch.OverrideHolds | crates/pyred/src/state.rs:135-160 | until an override expires or is replaced, every evaluation leaves the pane in the overriding state |
| PaneWatch.CrashedIff | crates/pyred/src/state.rs:165-182 | outside overrides, a pane is reported as crashed exactly when its process is gone and the last marker was a D with a non-zero code |
| PaneWatch.DoneIff | crates/pyred/src/state.rs:165-182 | as done exactly when its process is gone and the last marker was no such D |
| PaneWatch.InteractiveIff | crates/pyred/src/state.rs:184-187 | as interactive exactly when it lives and a full-screen program is in the foreground |
| PaneWatch.WaitingInputIff | crates/pyred/src/state.rs:189-225 | as waiting for input exactly when none of these holds and a shell has been quiet for more than 2 s after an A or B, or a coding agent for more than 15 s |
| PaneWatch.IdleIff | crates/pyred/src/state.rs:227-235 | as idle exactly when none of these holds, the last D is more than 5 s old and no output came a second or more after it |
| PaneWatch.RunningIff | crates/pyred/src/state.rs:237-238 | as running exactly when none of these holds |
| PaneWatch.UnseenWhenDone | crates/pyred/src/state.rs:241-252 | an evaluation clears the seen flag exactly when the pane becomes done |
| PaneWatch.FieldsFollowRun | crates/pyred/src/state.rs:102-133 | over every run the fields of the rules are the process of the pane, the time of its last output, its last marker and the time of its last D |
| PaneWatch.FreshOutputMeansRunning | crates/pyred/src/state.rs:203-238 | output at most two seconds old makes the next evaluation report a live pane as running, from any state; false positives heal themselves |
| PaneWatch.DoneStaysUnseen | crates/pyred/src/state.rs:241-260 | an unseen pane stays unseen until it is marked as seen |
| PaneWatch.WaitPaneState | crates/pyred/src/server.rs:415-458 | for everything that may happen to the pane meanwhile: the answer is true if and only if the pane is in the target state when the call is made, or at the end of a suspension that the call lives to see; true means that it was in that state at some moment of the call |
| PaneWatch.NoLostWakeup | crates/pyred/src/server.rs:428-457 | in no reachable state is a call parked on the current version while the state is its target, and true is only answered if the target held during the call |
| PaneWatch.WakesIfScheduled | crates/pyred/src/server.rs:446-455 | a parked call that gets to look while the state is the target answers true |
| PaneWatch.TrueIff | crates/pyre-proto/src/service.rs:190-195 | over every run a call answers true if and only if it saw the target, when it was made or at one of its looks |
| PaneWatch.TransientCanBeMissed | crates/pyred/src/server.rs:446-455 | a target state that comes and goes between two looks is missed |
| FireHeat.Propagate | crates/pyre-tui/src/fire_motion.rs:126-150 | the in-place sweep, top row first, equals the simultaneous update from the old buffer, for any wind and random choices; all accesses are in bounds |
| FireHeat.PropagateRow | crates/pyre-tui/src/fire_motion.rs:136-148 | one row of it, with the rows above already new and those below still old |
| FireHeat.SweptLaw | crates/pyre-tui/src/fire_motion.rs:130-149 | cell by cell: the heat of the source cell, one or two rows below in the column of the wind held at the edges, less the cooling, down to 0; the bottom row stays |
| FireHeat.SweepKeepsBounded | crates/pyre-tui/src/fire_motion.rs:143-147 | no cell exceeds 48 |
| FireHeat.LaunchCools | crates/pyre-tui/src/splash.rs:197-215 | a launch frame makes two more rows cold, from the bottom |
| FireHeat.LaunchClears | crates/pyre-tui/src/splash.rs:197-215 | after n launch frames the bottom min(rows, 2n) rows are zero, whatever the wind and the random choices |
| FireHeat.CalmLosesTwoRows | crates/pyre-tui/src/splash.rs:197-215 | the bound is tight: in calm air a uniformly hot buffer loses exactly two rows per frame |
| FireHeat.RunFire | crates/pyre-tui/src/splash.rs:181-215 | the buffer stays within 48, and is cold at the end when the terminal has at most as many rows as there are launch frames |
| FireHeat.Erupt | crates/pyre-tui/src/splash.rs:182-196 | the buffer after seeding and any number of sweeps, still within 48 |
| FireHeat.Seed | crates/pyre-tui/src/splash.rs:185-193 | the two bottom rows get their heat column by column, the upper one never hotter than the lower one, and every other cell stays |
| FireHeat.SeededLaw | crates/pyre-tui/src/splash.rs:185-193 | column by column: the bottom row gets its heat, at most 48, the row above it no more than that, and all other rows stay |
| FireHeat.Launch | crates/pyre-tui/src/splash.rs:197-215 | shift, clear and sweep as one frame of the launch |
| FireHeat.ShiftUp | crates/pyre-tui/src/splash.rs:198-202 | every cell takes the one below it, and the bottom row is cold |
| GitPorcelain.ParsePorcelain | crates/pyred/src/git.rs:23-88 | the branches that assign the header fields, and the count of non-empty lines, compute the parse that the round trips are about |
| GitPorcelain.ReadsCounts | crates/pyred/src/git.rs:90-100 | the counts are read back from each of the three forms of the bracket, absent ones as none |
| GitPorcelain.ReadsCount | crates/pyred/src/git.rs:90-100 | a count is read back after the first occurrence of its label, and ignored when it does not fit 32 bits |
| GitPorcelain.NoHeaderNoInfo | crates/pyred/src/git.rs:23-47 | output that does not begin with a header line yields an empty branch and no counts |
| GitPorcelain.HeaderRoundTrip | crates/pyred/src/git.rs:49-74 | printing a header and parsing it gives back branch, upstream and both counts, for all legal names and all counts below 2^32 |
| GitPorcelain.HeadRoundTrip | crates/pyred/src/git.rs:49-74 | for all forms of the header (upstream present, absent or lost, no commits yet, detached) and all legal names: it is read back if and only if it is not that of a branch without commits that has an upstream |
| GitPorcelain.EmptyCloneIsMisread | crates/pyred/src/git.rs:49-51 | the header of a fresh clone of an empty repository, what it means, and the branch name that is read from it |
| GitPorcelain.RoundTrip | crates/pyred/src/git.rs:23-88 | for the whole output: what is read in every case, that it is what was printed, with the number of change lines, if and only if the branch is not one without commits that has an upstream |
| DeviceFlow.GitHubLink.constructor | gui/src/github-link.ts:30-37 | no link open, nothing pending |
| DeviceFlow.GitHubLink.Start | gui/src/github-link.ts:76-81 | refused exactly while an attempt is starting or open |
| DeviceFlow.GitHubLink.StartGranted | gui/src/github-link.ts:84-89 | deadline, interval and first timer of a new attempt |
| DeviceFlow.GitHubLink.StartRejected | gui/src/github-link.ts:90-97 | back to idle |
| DeviceFlow.GitHubLink.StartPolling | gui/src/github-link.ts:151-156 | replaces any timer by one after the granted interval |
| DeviceFlow.GitHubLink.Stop | gui/src/github-link.ts:158-163 | clears the timer that the variable names |
| DeviceFlow.GitHubLink.Schedule | gui/src/github-link.ts:165-168 | one more timer, remembered |
| DeviceFlow.GitHubLink.PollOnce | gui/src/github-link.ts:170-177 | past the deadline no poll is made and the attempt fails |
| DeviceFlow.GitHubLink.PollResolved | gui/src/github-link.ts:178-222 | the whole new state after each kind of reply |
| DeviceFlow.GitHubLink.Catch | gui/src/github-link.ts:181-200 | terminal errors, the fifth untagged one, and retries |
| DeviceFlow.GitHubLink.Answered | gui/src/github-link.ts:201-228 | the whole new state after each answer of the server, up to the account call |
| DeviceFlow.GitHubLink.AccountResolved | gui/src/github-link.ts:228-241 | the attempt ends whether or not the account arrived |
| DeviceFlow.GitHubLink.Fail | gui/src/github-link.ts:243-248 | a failed attempt leaves no deadline and no named timer |
| DeviceFlow.GitHubLink.CancelLink | gui/src/github-link.ts:101-105 | a cancelled attempt leaves no deadline and no named timer |
| DeviceFlow.PollingDiscipline | gui/src/github-link.ts:151-248 | in every run whose cancellations find nothing suspended: at most one of timer, poll and account call is pending, exactly while a link is open; the interval is the granted one plus 5 s per slow_down; at most floor(expires_in / max(1, interval)) polls are made |
| DeviceFlow.NextWait | gui/src/github-link.ts:203-220 | after a pending or slow_down reply the only timer is due max(1, interval) + 5s seconds later, where s counts the slow_downs |
| DeviceFlow.OnlyAuthorizedFetches | gui/src/github-link.ts:203-228 | in every careful run, only an authorised reply reaches the account call, and nothing else is pending then |
| DeviceFlow.RefusalEnds | gui/src/github-link.ts:181-214 | a denied or expired reply and a tagged error end the attempt with nothing pending |
| DeviceFlow.RetryWaits | gui/src/github-link.ts:203-220 | a pending or slow_down reply leaves exactly one timer, due after the granted interval plus 5 s per slow_down, and nothing else |
| DeviceFlow.ErrorWaitsOrEnds | gui/src/github-link.ts:191-200 | an untagged error leaves one timer in the same way, or ends the attempt with nothing pending |
| DeviceFlow.StartLaw | gui/src/github-link.ts:84-89 | a granted code opens the link with its lifetime as the deadline and one timer after max(1, interval) seconds |
| DeviceFlow.FireLaw | gui/src/github-link.ts:170-177 | a timer that fires makes one poll up to the deadline and ends the attempt after it |
| DeviceFlow.EndLaw | gui/src/github-link.ts:90-105 | an account reply, a cancellation with nothing suspended and a start that failed leave nothing pending and no link |
| DeviceFlow.CounterIsErrorsInARow | gui/src/github-link.ts:191-202 | while a link is open the counter is the number of untagged errors that its attempt received last, in a row |
| DeviceFlow.FifthErrorEnds | gui/src/github-link.ts:191-202 | an untagged error ends the attempt if and only if the last five replies of that attempt were untagged errors; a failed attempt leaves nothing pending |
| DeviceFlow.UnsafeCancelBreaksDiscipline | gui/src/github-link.ts:101-105 | the hypothesis on cancellations is exact: after a cancellation with a call suspended, the next attempt has two activities |
| DeviceFlow.UnsafeCancelDoublesPolling | gui/src/github-link.ts:178-207 | after a cancellation during a poll, its reply leaves two timers behind the next attempt |

## Left out

- LayoutGeometry.LeavesInner: does not model the overflow of the u16 sum of weights, which only hand-built splits with a total above 65535 can reach; rectangles stay within the viewport, so u32 positions cannot overflow.
- LayoutWeights.RebalanceInPlace: does not model overflow of the i32 products and u16 sums, which weights that sum to 100 cannot reach; the guarantee is stated for those.
- LayoutWeights.SetWeight: nodes that the source edits through `&mut` are passed in and handed back (aliasing is excluded by ownership there); the weights of one split are an array edited in place.
- LayoutRuns.Window.ApplyDragWeights: the mouse movement in percent is an arbitrary integer, so the floating-point quotient and its saturation are not modelled.
- LayoutMirror.RemoveLeafRefines: `setLeafWeight` of the browser is not part of the comparison; it has its own rule for weights.
- BlockParser.BlockMachine.OscDispatch: the command is trimmed of ASCII white space as bytes; lossy UTF-8 decoding, Unicode white space, the digits of the exit code and markers of other OSC numbers are not modelled. Block ids are numbered instead of random.
- BlockParser.BlockMachine.Perform: the escape-sequence parser is a stream of tokens, text bytes and markers A to D; its state across reads is not modelled.
- BlockStore.HandleEvent: a row that cannot be created and a blob that cannot be opened are modelled; failing writes, closes and finalisations, panics of the blocking pool, and text that is not UTF-8 (indexed as empty) are not. Working directory, times and session ids are omitted.
- ShellHooks.BashHooks.PreExec: a terminal byte or a hook firing is atomic; hooks of the zsh and fish scripts, which have no at-prompt flag, are not modelled.
- EventSubscriber.SubscribeLoop: a failed call has no effect on the client wherever it fails; a daemon restart, which starts the numbering again, is not modelled.
- EventSubscriber.AwaitFirst: the arm for a closed channel is not modelled; the sender is a field of the registry that the call itself holds, so the channel cannot close during a call.
- PaneWatch.WaitPaneState: when `env` runs out the deadline has passed; unknown panes and poisoned locks are errors before the loop and are omitted; a deadline is a wake-up that may come at any time.
- PaneWatch.PaneStateTracker.Judge: programs and agents are classes (shell, full-screen, other; unknown, shell, coding agent); the name tables, `/proc` and the reason strings are omitted.
- FireHeat.Propagate: wind, depth and cooling are arbitrary functions of the cell, which covers the trigonometric fields and the random generator; colours and terminal output are omitted.
- GitPorcelain.ParsePorcelain: strings are sequences of characters, so byte offsets inside multi-byte characters do not occur; starting git is omitted.
- DeviceFlow.PollingDiscipline: timers never fire early and the clock is monotone; toasts, token storage, the browser and `disconnectGitHub` are omitted.
- The registry of sessions, windows and panes, the supervisor, RPC wrappers, sockets and handshakes.
- The search index, shards, migrations and hooks, which are mostly calls into other libraries.
- Rendering, themes, key bindings and command-line parsing.
