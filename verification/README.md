# Verified models of the SGLang / QCFuse runtime

This project models parts of the serving runtime and of its frontend language in Dafny and proves
properties of the models. Check it with `dafny verify dfyconfig.toml`.

There are four groups of modules.

**Batch-invariant matmul.** `TileSchedule` is the tile order of the persistent kernel; it is a
bijection from tile ids to the grid, also when the last group is short and the row of a tile is only
a cyclic shift. `PersistentMatmul` runs the launch: the programs interleave in any order, every tile
is computed once, and every cell of the result is one left fold over the K blocks of its own row and
column. The block update is uninterpreted, so a row does not depend on the rest of the batch even
though floating-point addition is not associative. With exact addition the fold is the dot product.

**Two-batch overlap.** `SplitSearch` finds where a batch is cut, `TwoChunkSplit` cuts the batch and
repairs the length metadata, `Operations` runs operation lists in stages, alone or as two executors
of which the second lags behind, `LayerStrategies` has the operation lists of the models, and
`BatchOverlap` puts them together: the overlapped run returns what the unsplit run returns. The
executors share a memory (the KV pool), and what a token reads from it are tokens that the operation
says it sees. The condition on the cut (no token before it sees a token after it) is shown to be
necessary.

`ExtendForward` composes them for an extend batch: the batch is prepared, each child derives the request
and position of its tokens, and what they may attend to, from its own columns, and the merged result is
that of the unsplit batch.

**The frontend language.** `ProgramGraph` collects and sorts the expressions of a traced program,
`StreamWorkers` and `StreamRuns` execute them with one worker per stream under every interleaving, and
`CompiledPrograms` says when the order that the sort picks does not matter. `Scripts` is a program as the
list of what it appends, with the tracer that links it into a graph, and `CompiledScripts` compares what
the compiled program returns with running the script directly.
`ChatTemplates` prints conversations, `ChatSession` is the text and the messages of one stream as its
events determine them, `StreamExecutors` is the executor with its speculation buffer, `Tracing`
extracts a prefix by tracing with dummy arguments, and `PatternMatch` matches the completion of a
whole turn against its pattern.

**State machines and searches.** `PortSearch` is the walk over port numbers, `GraphCapture` the
captured graph per shape, `CachePhases` the offline and online phases of the SSD runner, and
`GreedySelection` the token-by-token choice among options. `Arithmetic`, `Options` and `Strings` hold
what several modules need.

## Results about the code that a reader might not expect

- A compiled program does not return what a direct run gives, except for some programs. Take a program
  without forks whose direct run does not fail. No run of its compiled form fails and every one returns the
  direct text, for all constant texts, arguments and backends, exactly when no object is appended twice,
  every variable is appended before its name is generated again, and no previous edge leaves its stream
  (`CompiledScripts.ReturnsDirectIff`, over all runs). Each part can fail:
  the tracer gives the affixes of a role no stream, so a user turn returns its affixes without its content
  (`CompiledScripts.UserTurnLosesContent`); there is one object per argument, and appending it again
  overwrites its link to what came before it, so that a part of the program is dropped
  (`CompiledScripts.ReadAfterTwiceDrops`) or the caller gets an error
  (`CompiledScripts.AppendedTwiceFails`); and a variable that is held while its name is generated again is
  looked up anew (`CompiledScripts.HeldVariableIsStale`).
- Some run of a compiled program fails exactly when some expression that the sort kept is a variable of
  whose name no earlier expression of its source's stream is, or an argument that was not given, or when
  nothing was kept of the stream of the last expression (`StreamRuns.FailureIff`). The name that the tracer
  makes up for an unnamed generation is such a name, unless another expression of the stream carries it.
- The sort of a program with cyclic dependencies silently keeps only the expressions from which no cycle is
  reached (`ProgramGraph.CompiledFunction.TopologicalSort`). Of a program without forks that is a part from
  the beginning (`CompiledScripts.KeptPrefix`), and it is everything exactly when no object is appended twice
  and no name is recorded again once a variable of it was appended (`CompiledScripts.AcyclicIff`). Generating
  a variable, reading it and generating it again is a cyclic program, because the recorded variable is the
  second generation (`ProgramGraph.ReusedNameIsCyclic`).
- The start locations of the second child batch are rebased only when a sequence is cut in two. When
  the cut is between sequences they are right only if no token precedes the cut
  (`TwoChunkSplit.ForwardBatch.SplitInto`, an if-and-only-if that `Prepare` establishes; two sequences of
  four tokens each are such a batch, `TwoChunkSplit.SplitEqualHalves`). Nothing in the result of
  `ExtendForward` depends on them.
- Comparing a dummy argument with a string is false while tracing and raises nothing. The extracted
  prefix of a program is right for every branch that tracing did not follow, all arguments and all answers
  exactly when no undecided test is met before the prefix ends, or no text is added to the prefix after the
  first one (`Tracing.TestPlacement`).
- A text and its messages disagree as soon as a role's content starts with white space, because only
  the message is stripped (`ChatSession.TextIsPrompt`, both directions).
- Speculation is not transparent in general. The code limits backend calls in tokens and cuts its buffer
  in characters, so how many characters a call reads is the backend's choice. A run with speculation is
  the direct run, event by event, exactly when every generation was served as many characters as a direct
  call would return, with or without stop strings (`StreamExecutors.StreamExecutor.Run`). When that is, is
  stated for buffers that a call was made for and for left-over ones (`StreamExecutors.FreshStops`,
  `StreamExecutors.LeftoverStops`); if no call ahead reads less than a direct one, a run in which these
  conditions hold is the direct one, and without left-over servings they are necessary too. A program that
  is run without stop strings reaches the executor with an empty list of them, never with `None`
  (lang/ir.py:186-188), so the branch for `None` is not reached. With the empty list and w characters per
  token, a call made for a generation serves a direct call's text exactly if the larger of the generation's
  limit and the look-ahead is w times the generation's limit, or the text ends within both
  (`StreamExecutors.FixedWidth`).
- A failed pattern match leaves holes filled, and later tries take them for constants. A later try fares
  as a first one exactly when the completion repeats the texts of the filled holes as far as it is
  matched, or both agree on the rest of it after the first hole where it does not
  (`PatternMatch.RetryAfterStuck`, `PatternMatch.LaterTryIff`); where either accepts, they leave the same
  terms exactly in the first case (`PatternMatch.AcceptedAlikeIff`). It can refuse a completion that a first try
  accepts (`PatternMatch.StaleHole`) and accept one that a first try refuses
  (`PatternMatch.StaleHoleAccepts`).
- The address check before a replay compares tensors only. Over a whole sequence of calls the results are
  those of the general graph, for all graphs, exactly when every replayed call carries the other
  arguments of its shape's captured call (`GraphCapture.RunIsGeneral`).
- Greedy selection compares for exact equality; with exact numbers its early break is harmless.

Module names in the table are those of the files; source paths are relative to the root of the
repository's package.

## Model

| member | source | states |
|---|---|---|
| `TileSchedule.TileReached` | srt/batch_invariant_ops/batch_invariant_ops.py:40-46 | For every grid and group height, each tile of the grid is reached by some tile id of the launch. |
| `TileSchedule.TileReachedOnce` | srt/batch_invariant_ops/batch_invariant_ops.py:40-46 | Each tile id lands inside the grid, and no two tile ids land on the same tile, the short last group included. |
| `TileSchedule.TileHandledOnce` | srt/batch_invariant_ops/batch_invariant_ops.py:75-90 | Each tile id is handled by exactly one launched program in exactly one iteration of its strided loop. |
| `TileSchedule.CellInOneBlock` | srt/batch_invariant_ops/batch_invariant_ops.py:160-167 | Every cell of an axis lies in exactly one block of the grid. |
| `PersistentMatmul.CellInTileWindow` | srt/batch_invariant_ops/batch_invariant_ops.py:87-97 | A cell belongs to a tile exactly when it lies in the window that the tile's program computes. |
| `PersistentMatmul.AccumulateTile` | srt/batch_invariant_ops/batch_invariant_ops.py:86-119 | The K loop of a tile leaves in each element the fold over the masked K blocks of its own row and column. |
| `PersistentMatmul.StoreTile` | srt/batch_invariant_ops/batch_invariant_ops.py:121-140 | The masked store writes the tile's cells inside the matrix, with bias and cast, and no other cell. |
| `PersistentMatmul.ComputeTile` | srt/batch_invariant_ops/batch_invariant_ops.py:85-140 | One iteration writes the right value into exactly the cells of its tile. |
| `PersistentMatmul.MatmulPersistent` | srt/batch_invariant_ops/batch_invariant_ops.py:143-211 | Under every interleaving of the programs each tile is computed exactly once and every cell ends as the fold of its row and column. |
| `PersistentMatmul.RowIndependentOfBatch` | srt/batch_invariant_ops/batch_invariant_ops.py:50-140 | Two calls that share a row, the right operand, the bias and the K block size agree on that row, whatever the other rows, tile shapes, grouping and number of programs. |
| `PersistentMatmul.AccumulatedExact` | srt/batch_invariant_ops/batch_invariant_ops.py:99-119 | With exact addition the masked fold over any number of blocks is the dot product of what they cover; padding adds nothing. |
| `PersistentMatmul.CellIsDotProduct` | srt/batch_invariant_ops/batch_invariant_ops.py:91-119 | With exact addition a cell is the dot product of its row and column plus the bias, for every K. |
| `PersistentMatmul.MatmulExact` | srt/batch_invariant_ops/batch_invariant_ops.py:143-211 | With exact addition the launch returns, in cell (i, j), the sum over k of a[i][k] * b[k][j] plus entry j of the bias. |
| `PersistentMatmul.CellOfBlocks` | srt/batch_invariant_ops/batch_invariant_ops.py:99-119 | For any numerics: element k of block ki of the left operand is a[i][ki * blockK + k], of the right one b[ki * blockK + k][j], zero past the end; a cell is the cast of the fold over just enough such blocks plus entry j of the bias. |
| `SplitSearch.SplitArrayByBalancedSum` | srt/two_batch_overlap.py:125-141 | Although it stops at the first increase, the search returns the largest cut that minimises the imbalance over all cuts. |
| `SplitSearch.WorseFromHereOn` | srt/two_batch_overlap.py:125-141 | Once a cut is worse than the one before it, no later cut is better. |
| `SplitSearch.SplitArrayByCumLessThanHalf` | srt/two_batch_overlap.py:110-122 | The chosen sequence is the one that holds token total//2. |
| `SplitSearch.IsTwoChunkSplitEnabled` | srt/two_batch_overlap.py:89-100 | Enabled exactly when the best balanced cut is outside the configured band: for two sequences or more, exactly if every cut between sequences leaves an imbalance above total * (1 - 2 * threshold); for fewer, exactly if total * threshold is positive. |
| `SplitSearch.ImbalanceIs` | srt/two_batch_overlap.py:125-141 | The imbalance of a cut is the distance between the sums of its two sides. |
| `SplitSearch.HeavySide` | srt/two_batch_overlap.py:89-107 | Lengths [1000, 1] and [1, 1000] are both cut after token 500, inside the long sequence. |
| `SplitSearch.LopsidedHasTokens` | srt/two_batch_overlap.py:89-122 | If two-chunk is enabled the batch has tokens and prefix(idx) <= total//2 < prefix(idx+1). |
| `SplitSearch.SplitExtendSeqs` | srt/two_batch_overlap.py:103-107 | The two searches are chosen by whether two-chunk is enabled. |
| `SplitSearch.ComputeSplitSeqIndex` | srt/two_batch_overlap.py:70-86 | The sequence index per forward mode, and exactly when the call raises. |
| `SplitSearch.ComputeSplitTokenIndex` | srt/two_batch_overlap.py:257-275 | The token index per forward mode, inside the batch, and exactly when the call raises. |
| `SplitSearch.EvenCut` | srt/two_batch_overlap.py:70-86 | A decode or verify cut falls between sequences and its halves differ by at most one sequence. |
| `TwoChunkSplit.PositionsAppend` | srt/model_executor/forward_batch_info.py:1036-1050 | The positions of two tables of sequences, one after the other, are the concatenated positions. |
| `TwoChunkSplit.CutInside` | srt/two_batch_overlap.py:534-593 | Cutting one sequence keeps seq_len = prefix + extend in both tables, and their positions concatenate to the original ones. |
| `TwoChunkSplit.StartLocsOfTail` | srt/two_batch_overlap.py:596-745 | Start locations sliced off a batch are those of the slice exactly if no token precedes it. |
| `TwoChunkSplit.ForwardBatch.FilterBatch` | srt/two_batch_overlap.py:596-745 | A child has the given token range of the token fields and the given sequence range of the length columns, request indices and start locations, with its own totals; its buffer length is its number of tokens exactly if the batch has one and the setting asks for it. |
| `TwoChunkSplit.ForwardBatch.DeriveFieldsForTwoChunk` | srt/two_batch_overlap.py:534-593 | The repaired lengths, totals and start locations of both children, and what stays unchanged. |
| `TwoChunkSplit.ForwardBatch.Prepare` | srt/two_batch_overlap.py:456-531 | For an extend batch, both children have consistent metadata, their tokens, their counts of tokens and recomputed positions are those of the batch, a two-chunk cut gives half of the tokens to the first; the second child's start locations are right exactly if two-chunk or nothing precedes the cut. |
| `TwoChunkSplit.SplitEqualHalves` | srt/two_batch_overlap.py:499-520 | A batch of two sequences of four tokens each: everything about the second child is right but its start locations. |
| `TwoChunkSplit.EqualHalves` | srt/two_batch_overlap.py:89-107 | That batch is cut between its sequences, after four tokens. |
| `Operations.ChunkBySeparator` | srt/operations.py:184-195 | The loop produces the chunks. |
| `Operations.ChunksFlatten` | srt/operations.py:184-195 | The chunks hold exactly the operations, in order, yields erased. |
| `Operations.ChunkCount` | srt/operations.py:184-195 | One chunk per yield, and one more for operations after the last yield. |
| `Operations.NonEmptyChunks` | srt/operations.py:175-181 | The assertion that no stage is empty holds exactly if no yield follows another yield or comes first. |
| `Operations.ConvertOperationsToStages` | srt/operations.py:175-181 | The stages, or the failing assertion. |
| `Operations.StageExecutor.Next` | srt/operations.py:89-111 | One stage publishes the executor's own buffer lengths, folds its operations and advances the index. |
| `Operations.ExecuteOperations` | srt/operations.py:21-27 | Running stage by stage is one fold over the operations with the yields erased. |
| `Operations.ExecuteOverlappedOperations` | srt/operations.py:30-58 | No assertion fails exactly if stages match and 0 <= delta <= stages; then both executors finish and the run is that of the skewed schedule. |
| `Operations.OverlapLead` | srt/operations.py:42-58 | B never starts a stage that A has not completed, and A is at most delta + 1 stages ahead, at every step. |
| `Operations.ScheduleAt` | srt/operations.py:42-58 | Which executor runs at each step of the skewed schedule. |
| `Operations.ObservedLengths` | srt/operations.py:89-111 | Which buffer lengths every stage observes in the shared global: its own if it has some, otherwise possibly those of the other executor. |
| `LayerStrategies.LayersSupported` | srt/operations_strategy.py:31-56 | Exactly which layer lists and modes have a strategy. |
| `LayerStrategies.LayersShape` | srt/operations_strategy.py:18-28 | The concatenated lists of any number of layers have no idle yield and the layers' total number of yields. |
| `LayerStrategies.LayerRuns` | srt/operations_strategy.py:82-211 | Every list runs the operations of its layer once in one common order, with a yield between starting and finishing each communication; DeepSeek layers run their shared experts once, while a communication is in flight, and Qwen3 layers have none. |
| `LayerStrategies.LayersRun` | srt/operations_strategy.py:31-56 | In the strategies of a model, layer i runs its own operations in that way. |
| `LayerStrategies.ConcatIff` | srt/operations_strategy.py:18-28 | Strategies are concatenated exactly if there are some and they agree on both settings. |
| `LayerStrategies.ModelStages` | srt/operations_strategy.py:82-211 | 5L + 1, 5L or 2L + 1 stages, none empty, and the delay of the second batch is always legal. |
| `BatchOverlap.FoldOnShard` | srt/two_batch_overlap.py:825-853 | Consecutive operations on a part of the rows compute that part of the reference rows and touch only its slots of the shared memory. |
| `BatchOverlap.RunHolds` | srt/two_batch_overlap.py:825-853 | Under every schedule that keeps B behind A, at every step each executor has its part of the reference rows. |
| `BatchOverlap.ModelForwardNonTbo` | srt/two_batch_overlap.py:856-858 | The unsplit run computes the reference. |
| `BatchOverlap.ModelForwardTbo` | srt/two_batch_overlap.py:825-853 | Splitting by token range, running overlapped and concatenating computes the same reference, for any safe cut and legal delay. |
| `BatchOverlap.CutBetweenSequencesIsSafe` | srt/two_batch_overlap.py:257-275 | Operations that stay within a sequence may be cut between any two sequences. |
| `BatchOverlap.ChosenCutIsSafe` | srt/two_batch_overlap.py:257-275 | The token that the search picks is a safe cut for causal operations, and for sequence-local ones if two-chunk is off. |
| `BatchOverlap.ForwardExtendBatch` | srt/two_batch_overlap.py:825-853 | For operations that are given the token numbers of the whole batch: pick the cut for the lengths, split, overlap, merge; the result is that of the unsplit run. |
| `BatchOverlap.UnsafeCutDiffers` | srt/two_batch_overlap.py:911-965 | The condition on the cut is necessary: any pattern of visible tokens that violates it has a model on which the overlapped run differs. |
| `ExtendForward.SlotsAtPositions` | srt/model_executor/forward_batch_info.py:1036-1050 | The slots that the columns give the tokens are at the batch's positions. |
| `ExtendForward.KvLensCover` | srt/two_batch_overlap.py:534-593 | In a batch with consistent columns every token lies within the sequence length of its request. |
| `ExtendForward.SlotsOrdered` | srt/model_executor/forward_batch_info.py:1036-1050 | Within a request later tokens have later positions. |
| `ExtendForward.ChildrenSlots` | srt/two_batch_overlap.py:534-593 | The requests and positions that the children's own columns give their tokens are those of the batch, also when a sequence is cut. |
| `ExtendForward.WholeIsCausal` | srt/two_batch_overlap.py:257-275 | What a token may attend to, derived from the columns, is in the batch and not later. |
| `ExtendForward.SeenIff` | srt/model_executor/forward_batch_info.py:1036-1050 | For distinct requests and consistent columns a token is seen by token t exactly if it is of the same sequence and not later. |
| `ExtendForward.OpSeesIff` | srt/model_executor/forward_batch_info.py:1036-1050 | An operation of the batch lets a token see exactly those if it attends, and none otherwise. |
| `ExtendForward.RunAlike` | srt/operations.py:30-58 | Executors whose operations act alike on their own shards run alike under every schedule. |
| `ExtendForward.ForwardPrepared` | srt/two_batch_overlap.py:456-520 | End to end: a prepared batch whose children run overlapped on what their own columns say, attending no further than their own sequence lengths, gives the result of the unsplit batch. |
| `ProgramGraph.CompiledFunction.BuildGraph` | lang/compiler.py:26-64 | The nodes are exactly the expressions reachable by previous and source edges, once each and fully linked; streams are renamed one to one to consecutive numbers and the last expression's stream is 0. |
| `ProgramGraph.CompiledFunction.TopologicalSort` | lang/compiler.py:66-81 | Every kept node follows its previous node and its source, also when both are the same; the nodes kept are exactly those from which no cycle is reached, so all of them exactly if the dependencies are acyclic. |
| `ProgramGraph.ReusedNameIsCyclic` | lang/compiler.py:49-60 | A variable that is generated again after it was read depends on the second generation, which depends on it: no order places both. |
| `StreamRuns.Compile` | lang/compiler.py:17-81 | Compiling any trace gives an arrangement of exactly the needed expressions from which no cycle is reached, all of them exactly if they are acyclic; streams are kept apart and the last expression is in stream 0; lookups are clear at least if names are unique per stream. |
| `StreamWorkers.LookupDefiner` | lang/interpreter.py:330-333 | At the head of a queue, the variable that is looked up is registered, and the value read is the output of the last expression of that name before it. |
| `StreamWorkers.HeadOutput` | lang/interpreter.py:398-415 | What the head of a queue appends is its meaning, and if it waits, it waits for an earlier expression that is queued. |
| `StreamWorkers.SubmitInv` | lang/interpreter.py:318-324 | Submitting keeps the invariant that each worker has executed its stream up to some position with its meaning; it fails exactly on a missing argument. |
| `StreamWorkers.WorkInv` | lang/interpreter.py:398-415 | If nothing submitted is bad, a step of any worker does not fail and keeps the invariant. |
| `StreamRuns.FailingRun` | lang/interpreter.py:636-639 | If an expression is the first bad one, some run submits exactly up to it, has executed everything before it, and fails there. |
| `StreamRuns.UnreturnedRun` | lang/compiler.py:114-117 | If nothing is bad but nothing was kept of the stream to return, some run executes everything and then fails where its caller looks that stream up. |
| `StreamRuns.FailureIff` | lang/compiler.py:95-117 | Some run fails exactly if some kept expression is a variable of whose name no earlier expression of its source's stream is, or a missing argument, or no expression of the last one's stream was kept. |
| `StreamRuns.NoDeadlock` | lang/compiler.py:95-117 | If nothing is bad and the returned stream has something kept, every reachable state is finished or some step can be taken. |
| `StreamRuns.EveryRunStops` | lang/compiler.py:95-117 | In that case every run stops after exactly one submission and one execution per expression and one return. |
| `StreamRuns.FinalText` | lang/interpreter.py:398-415 | In every finished run a stream has one and the same text: the outputs of its expressions in order. |
| `CompiledPrograms.FinalTextIsUnique` | lang/compiler.py:95-117 | If the expressions of each stream are pairwise connected by dependencies, any two finished runs give each stream the same text, even when the expressions were sorted differently. |
| `CompiledPrograms.ChainIsOrder` | lang/compiler.py:66-81 | A chain of previous edges through all kept expressions is the only order they can have. |
| `Scripts.Tracer.Execute` | lang/tracer.py:139-196 | An appended object is linked to the last one, whatever its link was, and a generation or selection is recorded under its name or a made-up one. |
| `Scripts.TraceProgram` | lang/tracer.py:54-72 | Tracing a script gives the trace in which the last append of an object determines its link, and in which exactly the affixes have no stream. |
| `Scripts.MadeUpName` | lang/tracer.py:184-196 | A made-up name counts the names recorded before it. |
| `Scripts.SourceOf` | lang/compiler.py:48-52 | A variable refers to the last object that the whole script records under its name. |
| `CompiledScripts.KeptPrefix` | lang/compiler.py:66-81 | The compiler keeps a first part of the script in its order: exactly what the last object needs, as far as no object is appended twice and every variable's source precedes it. |
| `CompiledScripts.AcyclicIff` | lang/compiler.py:66-81 | Everything is kept, and the dependencies are acyclic, exactly if no object is appended twice and no name is recorded again once a variable of it was appended. |
| `CompiledScripts.LookupsAreClear` | lang/interpreter.py:330-333 | In a compiled script no lookup depends on the interleaving, whatever names are repeated. |
| `CompiledScripts.FailsIff` | lang/compiler.py:95-117 | If the direct run does not fail, some compiled run fails exactly if nothing that is kept is in the stream of the last object. |
| `CompiledScripts.DirectIsSession` | lang/interpreter.py:437-498 | The text of the direct run, and what its variables hold, are those of the session into which its outputs are filled. |
| `CompiledScripts.ReturnsDirectIff` | lang/compiler.py:95-117 | If the direct run does not fail: no compiled run fails and every finished one returns the direct text, for all texts, arguments and backends, exactly if no object is appended twice, every variable is appended before its name is generated again, and no previous edge leaves its stream. |
| `CompiledScripts.AppendedTwiceFails` | lang/tracer.py:139-142 | Of "A", an argument, "B" and the argument again nothing is kept, and the caller gets an error. |
| `CompiledScripts.ReadAfterTwiceDrops` | lang/tracer.py:139-142 | Of a generation, an argument, "B", the argument again and the generated variable only the generation is kept and returned. |
| `CompiledScripts.HeldVariableIsStale` | lang/interpreter.py:636-639 | A variable that is appended after its name was generated again has the new value in the compiled program and the old one in the direct run. |
| `CompiledScripts.UserTurnLosesContent` | lang/tracer.py:179-226 | The compiled form of a user turn never fails and returns its affixes without the content. |
| `CompiledScripts.CompileScript` | lang/compiler.py:11-24 | Tracing and compiling any script gives a program that the stream workers can run. |
| `ChatTemplates.ChatTemplate.GetPrompt` | lang/chat_template.py:22-54 | The loop prints every message as prefix, content and suffix of its role in the template's map, none for an unknown role; a system message without content is the default prompt or nothing; in the Llama 2 style a first system message stands behind the user prefix, and a user message after a first message with content has no prefix. |
| `ChatTemplates.Llama2Prompt` | lang/chat_template.py:22-40 | In the Llama 2 style only the first two messages are printed differently from the plain style. |
| `ChatTemplates.PromptExtends` | lang/chat_template.py:43-54 | The prompt of a conversation extends the prompt of each earlier part of it, in both styles. |
| `ChatSession.BlocksRun` | lang/interpreter.py:641-693 | Complete role blocks never fail; text and messages are those of the blocks, with the default system prompt as a block of its own. |
| `ChatSession.TextIsPrompt` | lang/interpreter.py:641-693 | After complete role blocks the text is the prompt of the messages exactly if no content starts with white space. |
| `ChatSession.OnlyGrows` | lang/interpreter.py:437-479 | No event takes anything off the text or the messages. |
| `ChatSession.FirstRole` | lang/interpreter.py:641-657 | The first role of a conversation: a default system prompt that is not empty is printed and recorded before it, unless it is a system message. |
| `ChatTemplates.SpacesAre` | lang/interpreter.py:659-668 | Exactly which 29 characters are stripped from the front of a content. |
| `StreamExecutors.FindStop` | lang/interpreter.py:535-547 | The earliest position at which any stop string begins, or -1. |
| `StreamExecutors.CutIsFree` | lang/interpreter.py:553-567 | What precedes the first stop contains no whole stop string. |
| `StreamExecutors.FirstIsFirst` | lang/interpreter.py:535-547 | The position found is where some stop string occurs, and none occurs earlier; -1 exactly if none occurs. |
| `StreamExecutors.FreshStops` | lang/interpreter.py:548-567 | A buffer that a call was made for serves as many characters as a direct call returns exactly if the first stop fits into what the direct call reads, or there is none and the numbers agree; for any numbers of characters that the two calls read, the call ahead at least as many. |
| `StreamExecutors.LeftoverStops` | lang/interpreter.py:548-567 | The same for left-over text, for every way the text can go on: no stop string may begin before the first one and end behind the buffer. |
| `StreamExecutors.FixedWidth` | lang/interpreter.py:553-564 | With w characters per token and an empty list of stop strings, a generation that a call was made for is served as by a direct call exactly if the larger limit in characters is what the direct call reads, or the text ends within both. |
| `StreamExecutors.StreamExecutor.ExecuteFill` | lang/interpreter.py:481-498 | Filling keeps the buffer equal to what the last backend call returned beyond the text, or empties it. |
| `StreamExecutors.StreamExecutor.SpecGen` | lang/interpreter.py:519-567 | A call is made exactly if the buffer is empty, or too short without a stop; it has no stop and asks for the larger of the generation's limit and the look-ahead. Result and new buffer are the two parts of the buffer that served; the result reaches up to the first stop, or the limit that applies, and has no stop string in it. |
| `StreamExecutors.StreamExecutor.ExecuteGen` | lang/interpreter.py:569-601 | A generation keeps the speculation invariant; for a backend that continues its own text its result is a direct call's exactly if it is as long, with the exact conditions above. |
| `StreamExecutors.StreamExecutor.ExecuteRoleBegin` | lang/interpreter.py:641-657 | Beginning a role, default system prompt included, is the session's step; it fails exactly inside a role. |
| `StreamExecutors.StreamExecutor.ExecuteRoleEnd` | lang/interpreter.py:659-693 | Ending a role is the session's step. |
| `StreamExecutors.StreamExecutor.Run` | lang/interpreter.py:398-415 | Over every run the speculation invariant holds and the state is that of the executed events; the run is the direct one exactly if every generation was served as many characters as a direct call would return; the conditions on the buffers suffice for that, and are necessary without left-over servings; with one character per token, a generation without stop strings that a call was made for is the direct one if the look-ahead is no larger than its limit. |
| `Tracing.TracerProgramState.ExecuteRoleBegin` | lang/tracer.py:198-215 | The tracer's own role begin with its recorded constants. |
| `Tracing.TracerProgramState.Execute` | lang/tracer.py:144-196 | What each appended expression records, and when tracing stops or raises. |
| `Tracing.ExtractPrefixByTracing` | lang/tracer.py:29-51 | The prefix is the constant text before the first node that is not constant. |
| `Tracing.ExprAgree` | lang/tracer.py:198-226 | Before the prefix ends the tracer's role state and text are those of the real run, though it stores empty contents. |
| `Tracing.ReadsLastAnswer` | lang/interpreter.py:569-639 | In a run a variable is the last answer of its name, also in a test; an unnamed selection defines nothing, and an unknown name fails. |
| `Tracing.ReadWhileTracing` | lang/tracer.py:232-238 | While tracing, a bound argument is read as its string, a dummy or what was generated before stops tracing and fails every comparison, anything else is an error. |
| `Tracing.MadeUpNames` | lang/tracer.py:184-196 | The tracer makes up gen_0 and select_0 for what has no name; in the run the made-up name is unknown. |
| `Tracing.NothingUndecided` | lang/tracer.py:29-51 | A program whose traced path meets no undecided test before the prefix ends has no test that has to fail. |
| `Tracing.PrefixIsSound` | lang/tracer.py:29-51 | The extracted prefix is a prefix of the text of every run with those arguments that does not fail, whatever the model answers, if the tests that tracing could not decide fail in it. |
| `Tracing.NoTestIsSound` | lang/tracer.py:29-51 | A program whose traced path meets no undecided test has the right prefix for all arguments and answers. |
| `Tracing.TestPlacement` | lang/tracer.py:29-51 | For any program: the prefix does not depend on the branch that tracing does not follow at its first undecided test, and is right for every such branch, all arguments and all answers exactly if no such test is met or no text is added to the prefix after it. |
| `PatternMatch.SegmentationUnique` | lang/backend/openai.py:228-246 | A pattern has at most one segmentation of a completion. |
| `PatternMatch.SegmentationSpells` | lang/backend/openai.py:228-246 | The terms of a segmentation spell out a prefix of the completion, constants are kept and no filled hole contains its stop string. |
| `PatternMatch.OpenAI.SpecPatternMatch` | lang/backend/openai.py:228-246 | Matching succeeds exactly if a segmentation exists, and then the terms are it; otherwise the terms before the failing one are filled and the rest is untouched. |
| `PatternMatch.AttemptMatches` | lang/backend/openai.py:228-246 | The matching function succeeds exactly if there is a segmentation, and yields it. |
| `PatternMatch.OpenAI.RequestCompletions` | lang/backend/openai.py:256-268 | Exactly which of the tries matches: the first whose completion the terms left by the tries before it match. |
| `PatternMatch.OpenAI.RoleEndGenerate` | lang/backend/openai.py:248-281 | Exactly with speculation and for a text that is something followed by the assistant prefix: the text grows by exactly the terms, the pattern is emptied, every variable holds the segment of the last term with its name or what it held, and it is determined which try matched; otherwise nothing happens. |
| `PatternMatch.AssignedSegment` | lang/backend/openai.py:270-278 | A variable holds the segment of the last term with its name. |
| `PatternMatch.RetryIff` | lang/backend/openai.py:228-246 | For any terms with filled holes: a later try gives the same terms as a first one exactly if the completion repeats the filled texts as far as it is matched, or both refuse it. |
| `PatternMatch.AcceptedAlikeIff` | lang/backend/openai.py:228-246 | Where a first try or a later one accepts, they leave the same terms exactly if the completion repeats the filled texts as far as it is matched. |
| `PatternMatch.RetryAfterStuck` | lang/backend/openai.py:228-246 | After a try that got stuck, exactly when the next one matches the same completions as a first try. |
| `PatternMatch.LaterTryIff` | lang/backend/openai.py:256-268 | The same for every later try, in particular the second and the third. |
| `PatternMatch.StaleHole` | lang/backend/openai.py:256-268 | A later try can refuse a completion that a first try accepts. |
| `PatternMatch.StaleHoleAccepts` | lang/backend/openai.py:256-268 | A later try can accept a completion that a first try refuses. |
| `PortSearch.FindPort` | srt/server_args.py:3712-3720 | Where the walk reaches a free port the search returns the first one. |
| `PortSearch.Entry` | srt/server_args.py:3712-3720 | Every walk enters the window 59957..60041 without jumping over it. |
| `PortSearch.EvenJumps` | srt/server_args.py:3712-3720 | Inside the window two jumps move by -1 modulo 85. |
| `PortSearch.AllTried` | srt/server_args.py:3712-3720 | From inside the window all 85 ports are tried. |
| `PortSearch.EndsIff` | srt/server_args.py:3712-3720 | The search ends exactly if some port of the window is free, or a port tried on the way there. |
| `PortSearch.JumpsBounded` | srt/server_args.py:3712-3720 | With a free port in the window, a bound on the number of jumps. |
| `GraphCapture.CUDAPiecewiseBackend.Call` | srt/compilation/cuda_piecewise_backend.py:133-228 | The result of a call, as its place among the calls of its shape determines it; the counter grows exactly on a capture and nothing is compiled. |
| `GraphCapture.RunAll` | srt/compilation/cuda_piecewise_backend.py:133-228 | Over every call sequence each result is the expected one, the captures are the shapes holding a graph, and the results are the general graph's if the other arguments are kept. |
| `GraphCapture.PhasesInOrder` | srt/compilation/cuda_piecewise_backend.py:177-228 | After the capture of a shape it is never captured again: later calls replay that graph or are refused for their addresses. |
| `GraphCapture.RunIsGeneral` | srt/compilation/cuda_piecewise_backend.py:216-228 | Over every call sequence, every result that has a value is the general graph's on the call's own arguments and memory, for all graphs, exactly if each replayed call carries the other arguments of its shape's captured call. |
| `CachePhases.OfflineCovers` | blend/sglang_blend_ssd.py:156-210 | What the offline check accepts the online check accepts. |
| `CachePhases.OnlineCoversIff` | blend/sglang_blend_ssd.py:128-138 | Exactly when the converse holds. |
| `CachePhases.AcceptedIff` | blend/sglang_blend_ssd.py:156-210 | Exactly which directories are accepted: files, formats, recorded digest index, ratio, layers, the ends behind the last layer, and the context sink. |
| `CachePhases.AskedFor` | blend/sglang_blend_ssd.py:122-138 | Which caches and which layers the two phases ask for. |
| `CachePhases.BaselineSettings` | blend/sglang_blend_ssd.py:489-577 | The ratio, the layers and whether a query cache is needed, for every baseline. |
| `CachePhases.BaselinesDoNotShare` | blend/qcfuse_config.py:12-16 | No cache directory is accepted for two blend baselines. |
| `CachePhases.PathsDiffer` | blend/sglang_blend_ssd.py:115-120 | Different samples have different directories. |
| `CachePhases.SSDPipelineEngine.Phase1Offline` | blend/sglang_blend_ssd.py:383-435 | It returns only with a cache for every sample, fails at the first sample that still has none, leaves cached samples and other directories alone, and the directories of every other sample hold what saving it left. |
| `CachePhases.SSDPipelineEngine.Phase2Online` | blend/sglang_blend_ssd.py:437-486 | It scores exactly the samples with a cache, in order, or all of them without blending. |
| `CachePhases.SSDPipelineEngine.Run` | blend/sglang_blend_ssd.py:489-577 | From any initial disk, if the offline phase returns, every sample is scored. |
| `GreedySelection.BuildLogprobMatrix` | lang/choices.py:87-95 | Each row is its option, extended with its average. |
| `GreedySelection.MaximalStep` | lang/choices.py:97-104 | One column narrows the lexicographically maximal rows of the columns before it to those of one column more. |
| `GreedySelection.OnlyMaximal` | lang/choices.py:97-104 | A row that alone is maximal stays the only one: the early break loses nothing. |
| `GreedySelection.GreedySelection` | lang/choices.py:97-104 | The remaining rows are exactly the lexicographically maximal ones, in index order. |
| `GreedySelection.Choose` | lang/choices.py:58-85 | The decision is the first lexicographically maximal option. |

## Left out

- Floating-point rounding: log-probabilities, ratios and the token distribution threshold are real numbers; the matmul's numbers are uninterpreted.
- `tl.dot` is modelled element by element: an element depends on its old value, its row slice and its column slice. `mean_kernel`, `mean_dim` and `_log_softmax_kernel` are not modelled.
- Streams, events, SM counts and devices of the GPU; the capturing call of a graph has no value; weak references to outputs are not modelled.
- The length columns of a batch are modelled as one row per sequence, and dtypes are not modelled. `split_spec_info` and its custom masks are not modelled.
- `_StateDict`: the state of an executor is one value that operations map to the next one.
- TwoChunkSplit.ForwardBatch.Prepare: only the extend mode; a decode or verify batch is cut between sequences and has no length columns to repair (`SplitSearch.EvenCut`).
- TwoChunkSplit.ForwardBatch.FilterBatch: sampling, LoRA and multimodal fields and speculative info are not modelled.
- ExtendForward.ForwardPrepared: requests are distinct, and what was cached before the batch is part of the operations. The only attention is causal within a request.
- BatchOverlap.ModelForwardTbo: the batch-wide preparation before the split and the all-reduce between ranks are not modelled.
- PortSearch.FindPort: requires that the search ends, because the loop of the source does not end otherwise; `PortSearch.EndsIff` says when. Which ports are free does not change during the search.
- StreamRuns.Compile: fork nodes, which the executor does not accept, and variable scopes are not expressions of the model. What happens at run time is stated for programs whose lookups are clear, which compiled scripts always are: elsewhere a name that a stream defines several times has an event per definition, and what another stream reads depends on the interleaving. Executing an expression and setting its event is one atomic step; a run of the model ends with its first failure, so the shutdown of a failed worker is not modelled.
- StreamRuns.FailureIff: the backend is deterministic and answers every call.
- CompiledScripts.ReturnsDirectIff: programs of one tracer state, without forks, calls of other programs and variable scopes; and the direct run must not fail, since otherwise there is no text to compare with.
- StreamExecutors.StreamExecutor.Run: selections, images, videos, forks, streaming, lists of several answers (`n > 1`) and `SglSeparateReasoning`, which rewrites the text of a role, are not modelled. The exact conditions are for backends that continue their own text.
- Tracing.PrefixIsSound: goes one way for given arguments, because the branches of a program may agree by accident; `Tracing.TestPlacement` has both directions. Programs are decision trees over equality tests; formatting a dummy argument with `str` and `SglSeparateReasoning` are not modelled. Expression lists are appended leaf by leaf.
- Liveness of `text_iter` streaming and the retries of the HTTP client.
- PatternMatch.OpenAI.RoleEndGenerate: the completions of the tries are given in advance, and the sampling parameters collected for the request are not modelled.
- Metadata files of the caches are always well-formed JSON, and the timing of requests is not modelled.
- Options without tokens in `_build_logprob_matrix`, whose average is not a number.
- HTTP servers, clients, benchmarks, tokenizers, model configuration and argument declarations.
