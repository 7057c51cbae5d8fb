# Elements: a verified model

A GPU fluid engine evaluates a graph of nodes frame by frame, keeps snapshots of
its simulation state so that frames can be revisited, solves for the pressure
with multigrid and conjugate gradients, recycles its textures, and hands frames
out as OpenVDB files and through a shared-memory channel. This project models
the algorithms under that plumbing and proves what they promise. Textures are
abstract values or tenancies, kernels are operators over the reals, and any GPU
call may fail.

## What is modelled

- **Graph and timeline** (`Values`, `MapSums`, `FieldPool`, `StateStore`,
  `Graph`, `Plan`, `Transcript`, `Evaluator`, `Timeline`, `Playthrough`,
  `Session`). A node is a strategy: it sees the replies to what it asked so far
  and asks for an input (borrowed or taken), whether an output is wanted, a
  state slot, or it returns or fails. `Plan` gives the plain recursive meaning
  of a graph; `Evaluator` is the reference-counted run, proved to give that
  meaning with every texture accounted for. `Transcript` says what that meaning
  is without it: an account of who heard what, each reply the fair one, and the
  plain meaning is exactly what has an account. `Timeline` is the snapshot
  cache, proved to show what forward playback shows whatever calls came before
  and whatever failed; `Playthrough` plays a clock and a counter through it.
- **Pressure solve** (`Vectors`, `Kernels`, `Device`, `Batch`, `Multigrid`,
  `ConjugateGradients`, `Mgpcg`, `Geometry`, `Interpolation`, `Consistency`,
  `Transfer`, `Renormalise`, `FluidCells`). `Kernels` and `Device` say what each
  dispatch does; the recordings are methods on a batch, and running them in
  queue order is proved to compute the V-cycle's operator and conjugate
  gradients' iterates. `Geometry` shows that the levels and face weights the
  hierarchy builds are ones those results apply to, `Transfer` that the two
  transfer kernels add up rows and columns of one and the same matrix, and
  `FluidCells` that the walks the kernels take around a cell of the grid are the
  rows of those matrices, over any numbering of the fluid cells. `Interpolation`
  and `Consistency` say what those matrices are for: affine corrections prolong
  to themselves, and constants beside solid cells too (`Renormalise`), constants
  restrict to themselves, and the stencil of every level gives the Laplacian of
  low polynomials.
- **Substep lifetime and schedule** (`Tenancy`, `Schedule`, `Substep`). Each
  time a texture leaves the pool is a tenancy. Every stage, flush, early
  release, submission and abandonment keeps the queue in tenancy order.
  `Schedule` says which passes a substep has to record, in which order and over
  which fields; a substep is proved to record them, and a frame as many substeps
  as asked.
- **OpenVDB** (`LittleEndian`, `VdbBits`, `VdbTree`, `VdbBytes`, `VdbFile`,
  `VdbWriter`). The tree is proved to be the dense array, and a reader written
  here, which follows the patched offsets, to undo the writer.
- **Frame channel and protocol** (`FrameChannel`, `ChannelFile`, `Framing`). The
  double-buffered sequence lock as interleaved word-level steps; the header's
  checks; newline framing on both sides.
- **Metrics and meshes** (`Coverage`, `Mesh`, `Shack`).

## Where the code and what is said of it differ

- `EvalFrame` does not count the result socket as a use. When an extra output
  lies downstream of the output node, its path can use the result up, and a
  graph whose nodes all succeed fails (`Evaluator.ReadResultFails`,
  `EvaluateReadResult`). A graph with no extras never does
  (`Evaluator.NoExtrasNoReader`), and in general evaluation succeeds exactly when
  every node does and no needed node reads the result (`Plans.Plan.Expected`).
- An extra output may name the result socket; it is then reported as not
  produced.
- A failed staggered acquisition or copy drops the faces it already had. They
  are counted as dropped, not as outside, so textures still balance, and every
  method says what it may drop: nothing without a GPU failure, and at most the
  faces of one value to each (`FieldPools.FieldPool.LostOnlyToFaults`).
- `steps_run` counts successful evaluations of stateful graphs, and attempts on
  stateless ones, so it is the total of the evaluator's calls exactly when the
  graph is stateless or no call failed: when nothing faults, exactly when forward
  playback produces the frame (`Timelines.Timeline.Goto`;
  `Playthroughs.UncountedCall` shows a call it misses). The model counts calls
  separately, for that and for the bound on a render's cost.
- MGPCG returns its scratch fields even when its last flush failed. Dispatches
  then bind fields the pool may hand out again, which is harmless only because
  the substep abandons that batch: the invariant is split into what every stage
  keeps and what only a successful one does (`Substeps.Substep.Sound`, `Ready`).
- The channel's size check refuses some channels of no values, because an
  intermediate product overflows (`ChannelFile.EmptyChannelRefused`).
- A read that returns sequence 0 while the first publish is in flight can carry
  that publish's words (`FrameChannels.ZeroReadFails`): it is zeros exactly when
  the words it met are (`FrameChannels.ZeroRead`, `ZerosExactly`). Sequences
  from 1 on are whole.
- A guard of conjugate gradients that fires before the solve is finished leaves
  the textbook's iterates, for good (`Mgpcg.LeavesTextbook`) or by a late and
  shorter step (`ConjugateGradients.Problem.LateStepIsHalf`); the first n
  pressures are the textbook's exactly when none does
  (`ConjugateGradients.Problem.RunIsTextbook`). The energy never falls either
  way (`ConjugateGradients.Problem.EnergyRises`).
- A string of 2^32 bytes or more is written with its length truncated, and then
  does not read back (`VdbBytes.ReadTextBack`); nor does a file with such a name
  or as many grids (`VdbWriter.WriteFloatGrids`).
- A shack with a negative gap is built, closed and of the right total volume,
  but its planks can overlap (`Shacks.ApartExactly`).

## Model

| member | source | states |
|---|---|---|
| `Graphs.Graph.AddNode` | crates/elements-core/src/graph/mod.rs:126-130 | the new node gets the next id and nothing else changes |
| `Graphs.Graph.Connect` | crates/elements-core/src/graph/mod.rs:151-191 | accepted exactly when both sockets exist, agree in type and the input is free; a refused call changes no edge |
| `Graphs.Graph.SetOutput` | crates/elements-core/src/graph/mod.rs:193-195 | the output is the named node, known or not |
| `Graphs.Graph.SetExtraOutputs` | crates/elements-core/src/graph/mod.rs:288-313 | accepted exactly when every socket exists and can be exported and none repeats; a refused list leaves the old one |
| `Graphs.Graph.SourcesOfExact` | crates/elements-core/src/graph/mod.rs:255-264 | the list of a node's sources holds exactly the nodes that feed it |
| `Graphs.Graph.PushSources` | crates/elements-core/src/graph/mod.rs:239-247 | opening a node covers every source, or names a node on a cycle |
| `Graphs.Graph.Explore` | crates/elements-core/src/graph/mod.rs:222-249 | one root's search keeps the search invariant, finishes the root and forgets no finished node, or names a node on a cycle |
| `Graphs.Graph.TopologicalOrder` | crates/elements-core/src/graph/mod.rs:211-253 | the iterative search ends, succeeds exactly when no node is on a cycle, then lists every node once with sources first, and otherwise names a node that is on a cycle |
| `Graphs.Dag.OrderedIsAcyclic` | crates/elements-core/src/graph/mod.rs:211-253 | a list with sources first has no cycle through any of its nodes |
| `Values.BytesAreTextures` | crates/elements-core/src/graph/node.rs:188-197 | a value counts as the bytes of its textures, voxel by voxel, and a scalar as 4 |
| `Values.FitsExactly` | crates/elements-core/src/graph/node.rs:424-428 | a stored value fits a domain exactly when its textures are those its kind has there, face grids one longer along each axis in turn |
| `Graphs.Graph.Needed` | crates/elements-core/src/graph/mod.rs:266-285 | the backward worklist marks exactly the nodes with a walk to the output or an extra |
| `Graphs.Graph.EvaluationOrder` | crates/elements-core/src/graph/mod.rs:266-285 | exactly the nodes upstream of the output and the extras, each once, sources first; which errors come when |
| `Plans.Plan.FirstError` | crates/elements-core/src/graph/mod.rs:433-483 | a prefix of the order runs without error exactly when there is no first error |
| `Plans.Plan.Expected` | crates/elements-core/src/graph/mod.rs:354-412 | the plain recursive meaning succeeds exactly when every needed node does, no needed node reads the result socket, no extra names it, and the socket exists |
| `Plans.Plan.NeverGpu` | crates/elements-core/src/graph/mod.rs:433-483 | the plain meaning never fails for the GPU, so a GPU error is always a failure of this run |
| `Plans.OrderIndependent` | crates/elements-core/src/graph/mod.rs:354-488 | any two dependency orders of the same needed nodes give the same values and the same state |
| `Plans.Plan.StatelessSame` | crates/elements-core/src/graph/timeline.rs:148-154 | a graph without stateful nodes gives the same values from any state |
| `Transcripts.WantedIs` | crates/elements-core/src/graph/node.rs:115-121 | an output is wanted exactly when it is the result, an extra, or an edge to a node that runs starts at it |
| `Transcripts.AnswerIsFair` | crates/elements-core/src/graph/node.rs:269-447 | whatever a node has heard, the plain meaning answers its next call with the one fair reply, or ends where no reply is fair: an input is the value at the other end of its edge, unless already taken; a slot gives what was last put in it in this frame, failing that what it held before, and is empty once taken; values that do not fit, and stateless nodes, are refused |
| `Transcripts.NodeTold` | crates/elements-core/src/graph/mod.rs:433-460 | a node whose sources are fine hears fair replies until it returns what the plain meaning gives it, its slots as its own calls leave them, or until it is refused |
| `Transcripts.Retold` | crates/elements-core/src/graph/node.rs:269-447 | any conversation of fair replies that ends in a return is the plain meaning's |
| `Transcripts.ExpectedExactly` | crates/elements-core/src/graph/mod.rs:354-488 | the plain meaning yields given values and a given state exactly when an account explains them: every needed node's conversation is fair and ends in its outputs, each slot ends as its owner's calls left it, other slots as they were, and result and extras are the outputs asked for |
| `Transcripts.FailureIsRefusal` | crates/elements-core/src/graph/mod.rs:433-460 | a node that fails heard only fair replies before a call that is refused with that error |
| `Evaluator.UseEnds` | crates/elements-core/src/graph/mod.rs:104-119 | while the books hold, a connected input's value is there and right, its count is positive, and ending the use keeps the books |
| `Evaluator.WantedNow` | crates/elements-core/src/graph/node.rs:115-121 | the count-based rule says wanted exactly when the socket is the result, an extra or read by a node still to run |
| `Evaluator.Published` | crates/elements-core/src/graph/mod.rs:462-482 | placing a node's wanted outputs and dropping the rest keeps the books for the next node, and never overwrites a value |
| `Evaluator.Run.Count` | crates/elements-core/src/graph/mod.rs:415-426 | the initial counts are exactly the reads by needed nodes plus one for each extra |
| `Evaluator.Run.Consume` | crates/elements-core/src/graph/mod.rs:104-119 | one use less; the last one drops the value and returns its textures |
| `Evaluator.Run.Input` | crates/elements-core/src/graph/node.rs:281-301 | a borrow gives the plain meaning's value for every connected input not yet taken, and only then |
| `Evaluator.Run.InputConnected` | crates/elements-core/src/graph/node.rs:300-309 | answers true exactly where the plain meaning has a value to borrow, whether it was taken since or not |
| `Evaluator.Run.TakeInput` | crates/elements-core/src/graph/node.rs:322-349 | the value taken is the plain meaning's; the last use moves it, an earlier one copies it and counts the copy; a failed copy changes nothing |
| `Evaluator.Run.OutputWanted` | crates/elements-core/src/graph/node.rs:269-279 | answers true exactly for an output some reader, extra or the result needs |
| `Evaluator.Run.TakeState` | crates/elements-core/src/graph/node.rs:417-438 | a slot is handed over once; a slot of the wrong shape is removed and refused; stateless nodes are refused |
| `Evaluator.Run.PutState` | crates/elements-core/src/graph/node.rs:440-447 | the slot holds the value put, the one before returned; a refusal leaves every slot |
| `Evaluator.Run.Converse` | crates/elements-core/src/graph/node.rs:475-475 | whatever a node asks about its inputs and outputs, borrows, takes and stores, the answers it gets are those the plain meaning gives it, and only its own slots change |
| `Evaluator.Run.EvalNode` | crates/elements-core/src/graph/mod.rs:433-460 | one node's outputs and slots are the plain meaning's, or its error is |
| `Evaluator.Run.Publish` | crates/elements-core/src/graph/mod.rs:462-482 | the books hold for the next node and nothing is held |
| `Evaluator.Run.RunNode` | crates/elements-core/src/graph/mod.rs:433-483 | from its first call to its published outputs, with every input's use ended |
| `Evaluator.Run.RunAll` | crates/elements-core/src/graph/mod.rs:433-483 | after every node the state is the plain meaning's; an error is the plain meaning's first |
| `Evaluator.Run.Execute` | crates/elements-core/src/graph/mod.rs:414-488 | the result taken is the plain meaning's, and the extras are still there with theirs |
| `Evaluator.Run.CollectExtras` | crates/elements-core/src/graph/mod.rs:379-395 | the extras come out in order; only an extra that is the result socket is missing |
| `Evaluator.Run.HandOver` | crates/elements-core/src/graph/mod.rs:396-411 | success leaves only the result and the extras outside pool and state, an error nothing |
| `Evaluator.EvalPlan` | crates/elements-core/src/graph/mod.rs:354-412 | every texture made on the way is back in the pool, in the state or with the caller, and none is lost but at most three to each GPU failure, with none of which nothing is lost; success yields the plain meaning and its state; it fails for a GPU failure exactly when there was one, and otherwise with the plain meaning's error |
| `Evaluator.MakePlan` | crates/elements-core/src/graph/mod.rs:363-364 | there is something to run exactly when the graph has an output and no cycle |
| `Evaluator.EvalFrame` | crates/elements-core/src/graph/mod.rs:354-412 | for every graph, pool and state: success gives exactly the values and state that some account of the frame explains, call by call (`Transcripts`), and a failure without a GPU failure means no account exists; no texture is lost but to a GPU failure; a graph without an output or with a cycle touches nothing |
| `Evaluator.FrameExactly` | crates/elements-core/src/graph/mod.rs:354-488 | a graph's frame has an account exactly when the plain meaning of its plan yields those values and that state |
| `Evaluator.NoExtrasNoReader` | crates/elements-core/src/graph/mod.rs:414-426 | with no extras, no needed node can read the result socket, so the condition on it holds |
| `Evaluator.ReadResultFails` | crates/elements-core/src/graph/mod.rs:414-426 | with an extra downstream of the output it can fail: a three-socket graph whose nodes all succeed and whose evaluation does not |
| `Evaluator.ReadResultGraph` | crates/elements-core/src/graph/mod.rs:126-191 | the calls that build that graph are all accepted, and its plan is the one shown to fail |
| `Evaluator.EvaluateReadResult` | crates/elements-core/src/graph/mod.rs:354-412 | evaluating it is an error from any pool and state, whether or not anything faults, though both nodes compute in every frame |
| `FieldPools.FieldPool.Acquire` | crates/elements-core/src/gpu/pool.rs:47-90 | a pooled texture of the shape is reused before one is made; failure changes no bucket; every texture stays accounted for |
| `FieldPools.FieldPool.ReleaseTexture` | crates/elements-core/src/gpu/pool.rs:159-164 | one texture moves from outside to its bucket |
| `FieldPools.FieldPool.Release` | crates/elements-core/src/graph/node.rs:180-187 | every texture of the value goes back |
| `FieldPools.FieldPool.Duplicate` | crates/elements-core/src/graph/node.rs:200-215 | an equal value on textures of its own, or none: then nothing is kept outside, and exactly the textures acquired for the copy are dropped |
| `FieldPools.FieldPool.Obtain` | crates/elements-core/src/gpu/pool.rs:113-150 | all of a value's textures, or, when an acquisition or its clearing fails, none: exactly the faces acquired by then are dropped, never returned |
| `FieldPools.FieldPool.Clear` | crates/elements-core/src/gpu/pool.rs:170-172 | every idle texture is dropped and counted |
| `StateStores.StateStore.Clear` | crates/elements-core/src/graph/state.rs:38-44 | no slot is left and exactly their textures went back |
| `StateStores.StateStore.Take` | crates/elements-core/src/graph/state.rs:50-52 | the slot's value, removed |
| `StateStores.StateStore.Put` | crates/elements-core/src/graph/state.rs:54-63 | the slot replaced and the old value's textures returned |
| `StateStores.StateStore.Snapshot` | crates/elements-core/src/graph/state.rs:67-90 | equal copies of every slot and their total size, the store untouched; a failure returns the copies made |
| `StateStores.StateStore.Restore` | crates/elements-core/src/graph/state.rs:92-112 | success makes the slots equal to the snapshot's; textures balance on both paths |
| `Timelines.Timeline.Reset` | crates/elements-core/src/graph/timeline.rs:115-126 | every texture held returns, caching is on again, nothing is remembered |
| `Timelines.Timeline.Discard` | crates/elements-core/src/graph/timeline.rs:128-137 | everything is forgotten and dropped, not pooled |
| `Timelines.FindVictim` | crates/elements-core/src/graph/timeline.rs:266-271 | the strictly least recently used entry that is not protected, or none when only that is left |
| `Timelines.Timeline.EvictOne` | crates/elements-core/src/graph/timeline.rs:265-281 | exactly one entry goes, older than every unprotected one kept; bytes and textures stay accounted for |
| `Timelines.Timeline.MakeRoom` | crates/elements-core/src/graph/timeline.rs:265-281 | the loop ends; only the oldest go, none needlessly, never the protected one; it fails exactly when the protected entry alone leaves no room |
| `Timelines.Timeline.Insert` | crates/elements-core/src/graph/timeline.rs:249-295 | total bytes never exceed the budget; the new entry is the newest; a snapshot over the whole budget turns caching off |
| `Timelines.Timeline.RefusedOnlyByProtected` | crates/elements-core/src/graph/timeline.rs:272-276 | a snapshot within the budget is turned away only by the protected entry |
| `Timelines.Timeline.Touch` | crates/elements-core/src/graph/timeline.rs:212-221 | one entry becomes the newest and no other changes |
| `Timelines.Timeline.Restore` | crates/elements-core/src/graph/timeline.rs:212-227 | the held state becomes the one forward playback has on entering the frame, its entry the newest and protected |
| `Timelines.Timeline.Remember` | crates/elements-core/src/graph/timeline.rs:229-234 | before a frame is stepped its state is cached, unless the protected entry leaves no room or the state exceeds the whole budget; a failure changes no entry |
| `Timelines.Timeline.Step` | crates/elements-core/src/graph/timeline.rs:229-247 | one evaluation from the state entering the frame gives forward playback's output and leaves the state entering the next; the evaluator is called exactly once, unless the snapshot taken before it failed, and steps_run counts it exactly when it succeeds |
| `Timelines.Timeline.LatestCached` | crates/elements-core/src/graph/timeline.rs:190-194 | the greatest cached frame up to the one wanted |
| `Timelines.Timeline.Seek` | crates/elements-core/src/graph/timeline.rs:187-203 | playback starts from the greatest of the start frame, a held cursor and a cached frame not past the target |
| `Timelines.Timeline.AdvanceInner` | crates/elements-core/src/graph/timeline.rs:187-210 | exactly target - base + 1 evaluations, counted one for one in steps_run, and the target's output |
| `Timelines.Timeline.Advance` | crates/elements-core/src/graph/timeline.rs:177-185 | a failure forgets the held state, so a later call cannot start from a broken one |
| `Timelines.Timeline.AdvanceOrRetry` | crates/elements-core/src/graph/timeline.rs:156-171 | one more attempt from nothing when the slots were made for other dims, and still forward playback's output |
| `Timelines.Timeline.Goto` | crates/elements-core/src/graph/timeline.rs:139-171 | however the frame is reached and whatever failed before, success gives a value and state that a chain of explained frames leads to, after exactly target - base + 1 evaluations, and an error without a GPU failure means no chain does; when nothing faults, steps_run grows by the number of evaluator calls exactly when the graph is stateless or forward playback produces the frame; textures balance and none is lost but to a GPU failure |
| `Timelines.Playback.ClockIs` | crates/elements-core/src/graph/time.rs:22-31 | frame start + i has i frames elapsed, a frame before the start none |
| `Timelines.Playback.ProducesExactly` | crates/elements-core/src/graph/timeline.rs:139-171 | forward playback produces a frame exactly when a chain of states leads to it from nothing, each explained from the one before at its own frame number and elapsed time, and the frame is explained from the last |
| `Playthroughs.UncountedCall` | crates/elements-core/src/graph/timeline.rs:229-247 | one goto on a graph whose stateful node fails: the evaluator is called and steps_run does not count it |
| `Playthroughs.GotoClock` | crates/elements-core/src/graph/time.rs:22-31 | on a node that shows its frame and the frames elapsed, every goto that meets no GPU failure succeeds: start + k shows k, any frame up to the start shows 0, and the frame shown is never before the start |
| `Playthroughs.GotoCounter` | crates/elements-core/src/graph/node.rs:440-447 | on a node that counts in a slot, every goto that meets no GPU failure shows one more than the frames since the start and leaves that count in the slot, whatever was asked before |
| `Playthroughs.TwoFrames` | crates/elements-core/src/graph/timeline.rs:139-171 | from a fresh timeline such a counter shows 1, then 2 |
| `Timelines.Playback.FailsForGood` | crates/elements-core/src/graph/timeline.rs:139-171 | a frame forward playback cannot produce stops every later frame |
| `Sessions.Session.Recover` | crates/elementsd/src/daemon.rs:276-289 | after a lost device or exhausted memory nothing is held or cached: what was held is dropped, and with exhausted memory everything idle too, texture for texture; any other failure loses none; the session is ready again |
| `Sessions.Session.Evaluate` | crates/elementsd/src/daemon.rs:220-234 | the frame's value is the one forward playback shows |
| `Sessions.Session.Render` | crates/elementsd/src/daemon.rs:197-274 | at most twice 1,048,575 evaluations, none for a frame more than 1,048,574 past the start; what is shown is what forward playback shows; without a GPU failure no texture is dropped |
| `Sessions.Session.Serve` | crates/elements-core/src/graph/timeline.rs:115-171 | one call keeps the session ready and the textures balanced; without a GPU failure a goto or a reset drops none, a discard exactly what was held, and a recovery what its kind says |
| `Sessions.Session.Drive` | crates/elements-core/src/graph/timeline.rs:115-171 | over any sequence of goto, reset, discard and recovery, every frame handed out is forward playback's; without GPU failures none is missed that playback could show, and gotos and resets drop no texture |
| `Batches.ComputeBatch.Dispatch` | crates/elements-core/src/gpu/batch.rs:36-53 | one more dispatch recorded, after all the others |
| `Batches.ComputeBatch.Flush` | crates/elements-core/src/gpu/batch.rs:83-115 | what was recorded is queued in order; an empty batch submits nothing |
| `Batches.ComputeBatch.SubmittedAny` | crates/elements-core/src/gpu/batch.rs:118-120 | true exactly after a submission |
| `Kernels.Level.RaceFree` | crates/elements-ember/src/kernels/shaders/pressure.wgsl:11-99 | a cell's neighbour sum depends only on cells of the other colour, so a sweep in place is well defined |
| `Kernels.Level.ResidualIs` | crates/elements-ember/src/kernels/shaders/residual.wgsl:1-7 | with a matrix row for the neighbours' sum, div - h L(p) is b - A x for the symmetric face-weighted operator A; `FluidCells.Bound.WalkIsRow` shows the walk to be that row |
| `Kernels.Level.RelaxIs` | crates/elements-ember/src/kernels/shaders/pressure_level.wgsl:40-43 | with that row, one colour of a sweep adds a correction that depends on the residual alone |
| `Kernels.Level.SymmetricJacobi` | crates/elements-ember/src/kernels/project.rs:246-262 | each colour's correction is a symmetric operator |
| `Kernels.Level.SymmetricA` | crates/elements-ember/src/kernels/shaders/stencil.wgsl:1-47 | A is symmetric |
| `Kernels.Level.NegativeSemidefinite` | crates/elements-ember/src/kernels/shaders/stencil.wgsl:1-47 | A is negative semidefinite: the face weights are a weighted graph's |
| `Kernels.NegligibleExactly` | crates/elements-ember/src/kernels/shaders/pcg.wgsl:34-34 | a product is negligible exactly when it is no more than 10^-30 either way |
| `Device.Hierarchy.TransfersAdjoint` | crates/elements-ember/src/kernels/shaders/restrict.wgsl:1-78 | restriction is kappa times the transpose of prolongation |
| `Device.Hierarchy.RunConcat` | crates/elements-core/src/gpu/batch.rs:83-115 | running two recordings in queue order is running their concatenation |
| `Geometry.Axis.HalvedCovers` | crates/elements-ember/src/kernels/multigrid.rs:138-146 | halving keeps (n - 1) s < n0 <= n s: no empty cell, at most the last one partial |
| `Geometry.LevelShape.HalvedKeeps` | crates/elements-ember/src/kernels/multigrid.rs:260-271 | a level and its successor cover the domain, share one spacing along axes longer than one cell, and halving is idle exactly on a single cell |
| `Geometry.Levels` | crates/elements-ember/src/kernels/multigrid.rs:259-271 | the level loop ends at 1 x 1 x 1 from any dims, each level the half of the one before |
| `Geometry.WeightsPositive` | crates/elements-ember/src/kernels/multigrid.rs:148-200 | every face weight is positive, the last cell's extent is in (0, 1], and the widths add up to the domain |
| `Geometry.FineWeightsAreOne` | crates/elements-ember/src/kernels/multigrid.rs:954-963 | the finest level weighs every face exactly 1 |
| `Consistency.WeightsAreFluxes` | crates/elements-ember/src/kernels/multigrid.rs:148-200 | every face weight times the distance between the points it joins is one and the same flux, the open ends and the last partial cell included |
| `Consistency.AreaIsWidths` | crates/elements-ember/src/kernels/shaders/stencil.wgsl:8-24 | a face's area is that of its cell across the axis, in partial last layers too |
| `Consistency.EndsCount` | crates/elements-ember/src/kernels/shaders/stencil.wgsl:41-47 | an open domain face counts that area times the flux, over the distance to half a fine cell outside on its own side, and a closed one nothing |
| `Consistency.RootsScale` | crates/elements-ember/src/kernels/shaders/stencil.wgsl:26-47 | with solids a face scales by the roots of both cells' fluid fractions, an open one by its own cell's fraction |
| `Geometry.Stencil.FaceAgrees` | crates/elements-ember/src/kernels/shaders/stencil.wgsl:26-39 | both cells of a face compute the same weight |
| `Geometry.Stencil.WeightSymmetric` | crates/elements-ember/src/kernels/shaders/stencil.wgsl:26-39 | the stencil's matrix is symmetric |
| `Geometry.Stencil.ColoursDiffer` | crates/elements-ember/src/kernels/shaders/pressure_level.wgsl:19-43 | cells of one colour share no face |
| `Geometry.Stencil.LevelIsValid` | crates/elements-ember/src/kernels/shaders/stencil.wgsl:1-47 | the stencil of any level shape, with or without solids, is a level the solve's results apply to |
| `FluidCells.Bound.WalkIsRow` | crates/elements-ember/src/kernels/shaders/residual.wgsl:18-45 | around any fluid cell of the grid, the weighted sum and the total weight of the six-neighbour walk, solid neighbours and open faces included, are the row of the level's matrix, whatever numbering its fluid cells have |
| `FluidCells.Bound.Walk` | crates/elements-ember/src/kernels/shaders/residual.wgsl:37-45 | six faces, each looked past or found open, add up that sum and count |
| `FluidCells.Bound.Residual` | crates/elements-ember/src/kernels/shaders/residual.wgsl:26-48 | the kernel leaves b - k (sum - count p) of the six-neighbour walk, which is row i of b - A x at fluid cell i, and 0 in a solid cell |
| `FluidCells.Bound.Relax` | crates/elements-ember/src/kernels/shaders/pressure_level.wgsl:19-43 | one colour's pass leaves at fluid cell i a value that solves that cell's own equation, which is the value plus that colour's correction of the residual, and 0 in a solid cell |
| `Consistency.AffineIsFlat` | crates/elements-ember/src/kernels/shaders/stencil.wgsl:1-47 | on every level an affine pressure has no Laplacian at a cell with all its neighbours, next to the partial last cell too |
| `Consistency.SquareCurves` | crates/elements-ember/src/kernels/shaders/stencil.wgsl:1-47 | and the square of a position has the Laplacian 2, in the finest level's units |
| `FluidCells.FineFacesAreOne` | crates/elements-ember/src/kernels/shaders/pressure.wgsl:11-99 | on the finest level every face of the walk weighs 1: the unweighted kernel is the weighted one there |
| `Geometry.BelowIsNear` | crates/elements-ember/src/kernels/shaders/transfer.wgsl:36-43 | the coarse point below fine cell j is (j - 1) / 2, or the partial last cell just above it |
| `Geometry.Bracketed` | crates/elements-ember/src/kernels/shaders/transfer.wgsl:29-63 | a fine centre lies between the two points it is interpolated from |
| `Geometry.ProlongInterpolates` | crates/elements-ember/src/kernels/shaders/transfer.wgsl:29-63 | interpolation weights sum to 1 and none is negative |
| `Interpolation.CentroidOfChildren` | crates/elements-ember/src/kernels/multigrid.rs:148-200 | a coarse cell is as wide as its children together, and its centre is their mean, weighed by width |
| `Interpolation.LastBelow` | crates/elements-ember/src/kernels/shaders/transfer.wgsl:36-43 | the point below a fine centre is the last coarse centre at or before it, or none |
| `Interpolation.ProlongReproduces` | crates/elements-ember/src/kernels/shaders/transfer.wgsl:29-63 | the two weights give the fine centre back from the positions they weigh: coarse centres, and half a cell beyond an open end; at a closed end the last cell counts alone |
| `Geometry.WindowCovers` | crates/elements-ember/src/kernels/shaders/restrict.wgsl:4-5 | a fine cell reaches coarse cell C only from 2C - 2 to 2C + 3, partial last cells included |
| `Transfers.Gather` | crates/elements-ember/src/kernels/shaders/restrict.wgsl:29-60 | the fine indices of the window that reach a coarse index, with their weights |
| `Transfers.AxisSum` | crates/elements-ember/src/kernels/shaders/restrict.wgsl:4-5 | anything summed over those indices is the same summed over the whole fine axis |
| `Transfers.GathersColumn` | crates/elements-ember/src/kernels/shaders/restrict.wgsl:61-76 | the triple loop over the gathered indices adds up a column of P over the whole fine level |
| `Transfers.Restrict` | crates/elements-ember/src/kernels/shaders/restrict.wgsl:18-78 | one cell of the kernel leaves kappa times the transpose of P applied to r, and a zero correction, with or without solids |
| `Interpolation.ConstantRestricts` | crates/elements-ember/src/kernels/shaders/restrict.wgsl:18-78 | in the interior, and without solids, a constant residual restricts to the same constant: kappa is what the weights need |
| `Transfers.CornersAreRow` | crates/elements-ember/src/kernels/shaders/prolong_add.wgsl:26-45 | the eight corners, renormalised, add up a row of the same P over the whole coarse level |
| `Transfers.ProlongAdd` | crates/elements-ember/src/kernels/shaders/prolong_add.wgsl:17-49 | one cell of the kernel adds P e, solid cells and open faces skipped, P being the matrix `Interpolation.AffineProlongs` pins |
| `Interpolation.AffineProlongs` | crates/elements-ember/src/kernels/shaders/prolong_add.wgsl:26-45 | away from the domain's ends, and without solids, prolonging an affine correction gives the same affine correction, in three dimensions |
| `Renormalisation.ProlongNorm` | crates/elements-ember/src/kernels/shaders/prolong_norm.wgsl:18-54 | the loop over eight corners gives 0 at a solid fine cell, 1 where no corner with a weight is solid, and otherwise one over the weight kept |
| `Renormalisation.KeptSumsToOne` | crates/elements-ember/src/kernels/shaders/prolong_norm.wgsl:1-6 | so a fluid cell's kept weights, scaled, sum to 1, unless none is kept |
| `Renormalisation.ConstantArrives` | crates/elements-ember/src/kernels/shaders/prolong_norm.wgsl:1-6 | with solids too a constant correction prolongs to itself wherever a corner is kept and none is an open face's point |
| `Renormalisation.NothingArrives` | crates/elements-ember/src/kernels/shaders/prolong_norm.wgsl:1-6 | and where none is kept nothing arrives |
| `Renormalisation.EmptyMask` | crates/elements-ember/src/kernels/shaders/prolong_norm.wgsl:44-48 | a mask without solid cells leaves every entry of P as it is without one |
| `FluidCells.ListedSum` | crates/elements-ember/src/kernels/shaders/restrict.wgsl:18-78 | a sum over a level's numbered fluid cells is the sum over its grid of anything that is 0 at solid cells |
| `FluidCells.Levelled.RestrictionIs` | crates/elements-ember/src/kernels/shaders/restrict.wgsl:18-78 | what the kernel leaves at a coarse fluid cell is the hierarchy's restriction there, kappa times the transpose of the one matrix, for any numbering of the two levels |
| `FluidCells.Levelled.ProlongationIs` | crates/elements-ember/src/kernels/shaders/prolong_add.wgsl:17-49 | what the kernel adds at a fine fluid cell is the hierarchy's prolongation there |
| `Multigrid.VCycle.Smooth` | crates/elements-ember/src/kernels/project.rs:246-262 | the passes of the sweeps, the colours swapped when reversed |
| `Multigrid.VCycle.RecordOne` | crates/elements-ember/src/kernels/multigrid.rs:664-715 | the down loop, the coarsest sweeps and the up loop record the recursive cycle |
| `Multigrid.VCycle.Record` | crates/elements-ember/src/kernels/multigrid.rs:664-715 | so many cycles, one submission apart; a failed flush stops between two cycles |
| `Multigrid.VCycle.RecordFromZero` | crates/elements-ember/src/kernels/multigrid.rs:511-526 | a zeroing pass and one cycle, never a flush |
| `Multigrid.VCycle.CycleUnfolds` | crates/elements-ember/src/kernels/multigrid.rs:664-715 | the recursive cycle is the flat schedule, to every depth |
| `Multigrid.VCycle.CycleIs` | crates/elements-ember/src/kernels/multigrid.rs:664-715 | a cycle dispatch by dispatch: two red-black sweeps, residual, restriction, the cycle below, prolongation, two black-red sweeps; on the coarsest level red, black, black, red |
| `Multigrid.Palindrome` | crates/elements-ember/src/kernels/multigrid.rs:664-715 | a level's passes read the same backwards |
| `Multigrid.VCycle.HandDown` | crates/elements-ember/src/kernels/shaders/restrict.wgsl:18-78 | the next level gets the restricted residual and a zero correction |
| `Multigrid.VCycle.HandUp` | crates/elements-ember/src/kernels/shaders/prolong_add.wgsl:17-49 | the coarse correction is interpolated and added |
| `Multigrid.VCycle.RunOps` | crates/elements-ember/src/kernels/multigrid.rs:664-715 | a list of passes adds what its operator gives from the residual, and touches nothing above its level |
| `Multigrid.VCycle.RunCycle` | crates/elements-ember/src/kernels/multigrid.rs:664-715 | running the recorded cycle adds the cycle's operator applied to the residual, on a hierarchy of any depth |
| `Multigrid.VCycle.RunFromZero` | crates/elements-ember/src/kernels/multigrid.rs:511-526 | from whatever the field held, it ends with the operator applied to the right-hand side; no other solve field changes |
| `Multigrid.VCycle.ActSnoc` | crates/elements-ember/src/kernels/multigrid.rs:664-715 | a correction at the end of a list works on the residual the list leaves |
| `Multigrid.VCycle.ActOnZeros` | crates/elements-ember/src/kernels/multigrid.rs:664-715 | nothing is corrected where nothing is left |
| `Multigrid.VCycle.ActAdjoint` | crates/elements-ember/src/kernels/multigrid.rs:664-715 | the adjoint of a list of symmetric corrections is the reversed list |
| `Multigrid.VCycle.CorrectSymmetric` | crates/elements-ember/src/kernels/multigrid.rs:511-513 | one V-cycle from zero is a symmetric operator on a hierarchy of any depth |
| `ConjugateGradients.Problem.ResidualKept` | crates/elements-ember/src/kernels/mgpcg.rs:181-338 | r = div - A p after every iteration, guards included |
| `ConjugateGradients.Problem.Frozen` | crates/elements-ember/src/kernels/shaders/pcg.wgsl:71-103 | once <r,z> is negligible, p, r and z never change again |
| `ConjugateGradients.Problem.AlongDirection` | crates/elements-ember/src/kernels/shaders/pcg.wgsl:71-103 | <r,d> is a positive multiple of <r,z>, whatever the guards skipped |
| `ConjugateGradients.Problem.EnergyRises` | crates/elements-ember/src/kernels/shaders/pcg.wgsl:71-89 | with A semidefinite the quadratic energy never falls, and rises exactly when the step is taken |
| `ConjugateGradients.Problem.MoreNeverHurts` | crates/elements-ember/src/kernels/mgpcg.rs:152-178 | more iterations never make the energy worse |
| `ConjugateGradients.Problem.TextbookStep` | crates/elements-ember/src/kernels/shaders/pcg.wgsl:71-103 | with <r,z> and <d,Ad> not 0, one iteration is the textbook's exactly when neither guard fires |
| `ConjugateGradients.Problem.RunIsTextbook` | crates/elements-ember/src/kernels/mgpcg.rs:181-338 | for every n, the first n pressures are those of preconditioned conjugate gradients without guards exactly when each guard that fired before them found the solve finished, <r,z> = 0 |
| `ConjugateGradients.Problem.LateStepIsHalf` | crates/elements-ember/src/kernels/shaders/pcg.wgsl:71-103 | on any problem: where only the guard on <d,Ad> fires along a fresh direction and the doubled direction passes, the step comes one iteration late and lands half as far as the textbook's |
| `ConjugateGradients.Problem.ResidualAgainstDirection` | crates/elements-ember/src/kernels/mgpcg.rs:181-338 | each residual is orthogonal to every direction used |
| `ConjugateGradients.Problem.ResidualsConjugate` | crates/elements-ember/src/kernels/mgpcg.rs:181-338 | residuals are mutually orthogonal in the preconditioner |
| `ConjugateGradients.Problem.DirectionsConjugate` | crates/elements-ember/src/kernels/mgpcg.rs:181-338 | directions are mutually A-conjugate |
| `ConjugateGradients.Problem.Reached` | crates/elements-ember/src/kernels/mgpcg.rs:181-338 | the n-th pressure is the start plus a combination of the directions used |
| `ConjugateGradients.Problem.Best` | crates/elements-ember/src/kernels/mgpcg.rs:181-338 | no other combination of those directions has a higher energy |
| `Mgpcg.Solver.SolvingIsValid` | crates/elements-ember/src/kernels/mgpcg.rs:152-178 | A is linear, symmetric and semidefinite and the V-cycle symmetric: conjugate gradients' assumptions hold |
| `Mgpcg.Solver.Record` | crates/elements-ember/src/kernels/mgpcg.rs:181-338 | the program of n iterations with its flushes; a failed flush leaves a whole number of iterations |
| `Mgpcg.Solver.Solve` | crates/elements-ember/src/kernels/mgpcg.rs:145-178 | nothing for no iterations; otherwise, on success, all of it is queued and nothing is left pending |
| `Mgpcg.Solver.RunOpening` | crates/elements-ember/src/kernels/mgpcg.rs:310-315 | the opening leaves r, z, d and <r,z> of the zeroth iterate |
| `Mgpcg.Solver.RunUpdate` | crates/elements-ember/src/kernels/mgpcg.rs:323-326 | the passes with `scratch` re-zeroed leave q = -A d and <d,q>, then step |
| `Mgpcg.Solver.UpdateMoves` | crates/elements-ember/src/kernels/shaders/pcg.wgsl:71-89 | the two negations cancel: p and r move as conjugate gradients move them, guards included |
| `Mgpcg.Solver.RunRenewal` | crates/elements-ember/src/kernels/mgpcg.rs:328-332 | the new <r,z> goes to the other slot and d is renewed from both |
| `Mgpcg.Solver.RunIteration` | crates/elements-ember/src/kernels/mgpcg.rs:317-333 | one recorded iteration takes one iterate to the next, the slots alternating |
| `Mgpcg.Solver.RunBefore` | crates/elements-ember/src/kernels/mgpcg.rs:310-333 | for every k the five reused fields hold iterate k |
| `Mgpcg.Solver.RunProgram` | crates/elements-ember/src/kernels/mgpcg.rs:181-338 | for every n the recording computes conjugate gradients' n-th iterate from the pressure it was given |
| `Mgpcg.LeavesTextbook` | crates/elements-ember/src/kernels/shaders/pcg.wgsl:71-103 | a domain of one cell, preconditioned by its V-cycle: the textbook solves it in one step; so does this solve exactly when the right-hand side squared times 10^30 exceeds the operator, and otherwise it never leaves the start |
| `Mgpcg.UnitCellSolves` | crates/elements-ember/src/kernels/shaders/pcg.wgsl:71-103 | a unit cell and a unit right-hand side are solved in one iteration |
| `Mgpcg.SmallCellStays` | crates/elements-ember/src/kernels/shaders/pcg.wgsl:71-103 | a right-hand side of 10^-15 on it is never moved at all |
| `FluidCells.OneCellDomain` | crates/elements-ember/src/kernels/shaders/stencil.wgsl:1-47 | the stencil of any domain of one cell with an open face is such a level |
| `Tenancy.AcquireKeeps` | crates/elements-core/src/gpu/pool.rs:47-90 | a new tenancy starts after everything recorded |
| `Tenancy.RecordKeeps` | crates/elements-core/src/gpu/batch.rs:36-53 | a dispatch over fields that are held keeps every texture's dispatches in tenancy order |
| `Tenancy.OthersMaySubmit` | crates/elements-core/src/gpu/batch.rs:15-17 | work submitted past a pending batch keeps the order too, as long as every field the batch binds is still held |
| `Tenancy.OwnershipExactly` | crates/elements-core/src/gpu/batch.rs:15-17 | for every queue and pending batch: whatever others acquire and submit ahead of it keeps the queue in order exactly when every field the batch binds is still held, or its texture was dropped for good |
| `Tenancy.StaleBatchBreaksOrder` | crates/elements-core/src/gpu/batch.rs:15-17 | for every pending dispatch of a field that is gone, its texture's present or next holder can put a later tenancy ahead of it |
| `Tenancy.TexturePool.Acquire` | crates/elements-core/src/gpu/pool.rs:47-90 | the texture handed out is nobody else's, and its tenancy is new |
| `Tenancy.TexturePool.Release` | crates/elements-core/src/gpu/pool.rs:159-164 | one tenancy ends and no other |
| `Substeps.Substep.Take` | crates/elements-core/src/gpu/pool.rs:47-90 | a new field, kept, with every pending dispatch's fields still held |
| `Substeps.Substep.Kernel` | crates/elements-core/src/gpu/batch.rs:36-53 | any dispatches of one pass over held fields, cut short anywhere, keep the protocol; success records a run of that pass that binds the fields it surely binds |
| `Substeps.Substep.Advect` | crates/elements-ember/src/kernels/advect.rs:106-141 | one dispatch that binds the field it writes and what it surely reads, or a failure that records nothing |
| `Substeps.Substep.MacCormack` | crates/elements-ember/src/solver.rs:1164-1229 | both scratch fields are retired on every path; success has recorded the forward and the backward trace and the write, each binding the velocity |
| `Substeps.Substep.AdvectGrid` | crates/elements-ember/src/solver.rs:1125-1161 | exactly the carried field is kept on success, new and with the passes that carry it recorded, and nothing on failure |
| `Substeps.Substep.AdvectScalar` | crates/elements-ember/src/solver.rs:1073-1120 | the same with the mass measured before and corrected after, in a scratch field |
| `Substeps.Substep.ConfineVorticity` | crates/elements-ember/src/solver.rs:863-913 | four scratch fields retired on every path, a partial acquisition included; success has recorded the curl and the confinement |
| `Substeps.Substep.BurnSurface` | crates/elements-ember/src/solver.rs:748-800 | two scratch fields are retired, or a lone one returned, on every path; success has recorded ignition, gathering and the wood's emission |
| `Substeps.Substep.RecordForces` | crates/elements-ember/src/solver.rs:700-859 | the forces keep every field; success has recorded emission, fire, blending, buoyancy, wind and vorticity, in that order and as the set-up asks |
| `Substeps.Substep.PreProjection` | crates/elements-ember/src/solver.rs:700-859 | on success the forces and then each face's carrying are recorded and every face is new, on failure the velocity is unchanged; on every path the state's fields are live and distinct, and no other field is kept or lost |
| `Substeps.Substep.GaussSeidelSweeps` | crates/elements-ember/src/kernels/project.rs:96-126 | chunks and their flushes keep the protocol and record every sweep asked for, numbered in order |
| `Substeps.Substep.Cycles` | crates/elements-ember/src/kernels/multigrid.rs:664-715 | the cycles' flushes keep the protocol, and every cycle asked for is recorded |
| `Substeps.Substep.BuildLevels` | crates/elements-ember/src/kernels/multigrid.rs:273-391 | each level's fields, counted, all of them new |
| `Substeps.Substep.NewHierarchy` | crates/elements-ember/src/kernels/multigrid.rs:243-400 | on failure the levels built are dropped, and the batch can then only be abandoned |
| `Substeps.Substep.Mgpcg` | crates/elements-ember/src/kernels/mgpcg.rs:145-178 | every iteration asked for is recorded; the early release is safe after the final flush, and after a failed one only abandoning is |
| `Substeps.Substep.RecordProjection` | crates/elements-ember/src/solver.rs:943-987 | each of the three solves keeps the fields, whatever fails; success has recorded the divergence, the solve with the mean removed in a closed domain, and the gradient |
| `Substeps.Substep.Project` | crates/elements-ember/src/solver.rs:925-940 | the same through a divergence field of its own, retired on every path |
| `Substeps.Substep.AdvectScalars` | crates/elements-ember/src/solver.rs:1008-1066 | on success every carried scalar is new and carried through the velocity as it then is; wherever it fails the state's fields are live, distinct and as many as before, and no other field is kept or lost |
| `Substeps.Substep.Submit` | crates/elements-ember/src/solver.rs:1232-1238 | everything recorded reaches the queue before any retired field is idle |
| `Substeps.Substep.Abandon` | crates/elements-ember/src/solver.rs:1246-1254 | what was pending never runs, so returning its fields is safe |
| `Substeps.RunSubstep` | crates/elements-ember/src/solver.rs:1258-1280 | submitted or abandoned, the queue only grows, by work recorded, and holds every texture's dispatches in tenancy order, and only the state's fields stay out; on success what the queue gained is a whole substep's work from the state before to the state after (`Schedules.Advances`), and no texture is lost |
| `Substeps.RunFrame` | crates/elements-ember/src/solver.rs:1517-1549 | on success exactly the substeps asked for ran: a trace of count + 1 states and queues, each substep's work appended to the queue before it and taking the state before it to the next, into fields nobody held; otherwise a shorter trace; and all RunSubstep promises |
| `Schedules.PassByPass` | crates/elements-ember/src/solver.rs:700-1120 | a whole substep's work is one run each of a written-out list of passes, for every way it can be set up, and nothing else: none skipped, repeated or out of place |
| `Schedules.StageByStage` | crates/elements-ember/src/solver.rs:1258-1280 | forces and fire, the faces carried, divergence, solve, gradient, then the scalars carried: no dispatch of a stage comes after one of a later stage |
| `Schedules.ForcesAct` | crates/elements-ember/src/solver.rs:700-859 | what every force and emission binds |
| `Schedules.FireBurns` | crates/elements-ember/src/solver.rs:722-812 | what emission of fuel, ignition, the wood's emission and the burn bind |
| `Schedules.FacesAreCarried` | crates/elements-ember/src/solver.rs:840-859 | each face a substep leaves is written by a pass that reads all the faces there were before it |
| `Schedules.FacesGoBack` | crates/elements-ember/src/solver.rs:1164-1229 | with MacCormack each face is traced there and back through those same faces |
| `Schedules.VelocityIsProjected` | crates/elements-ember/src/solver.rs:925-987 | the divergence reads the carried faces, every sweep, cycle or iteration asked for works on the pressure, and the gradient writes those faces from it |
| `Schedules.MeanIsRemoved` | crates/elements-ember/src/kernels/project.rs:294-322 | in a closed domain the pressure loses its mean once the solve has run |
| `Schedules.ScalarsAreCarried` | crates/elements-ember/src/solver.rs:1008-1066 | density and temperature are carried through the projected faces, and corrected where mass is conserved |
| `Schedules.FireIsCarried` | crates/elements-ember/src/solver.rs:1030-1066 | and so are fuel and react when fire is on |
| `Schedules.AdvancesWrites` | crates/elements-ember/src/solver.rs:1258-1280 | every field the state carries afterwards is bound by recorded work |
| `Substeps.CountKept` | crates/elements-ember/src/solver.rs:1258-1280 | swapping the state's fields for as many others leaves as many fields outside |
| `VdbBits.BitForms` | crates/elements-io/src/vdb/tree.rs:28-41 | for every voxel in reach, masks and shifts give exactly the three natural-number offsets the tree is addressed by |
| `VdbBits.WordForms` | crates/elements-io/src/vdb/tree.rs:28-41 | on any 32-bit words they are sums of products and remainders in the words' own arithmetic |
| `VdbBits.AddressNamesVoxel` | crates/elements-io/src/vdb/tree.rs:28-41 | for every coordinate below 4096 the three offsets are in range and determine it |
| `VdbBits.VoxelHasAddress` | crates/elements-io/src/vdb/tree.rs:28-41 | every triple of offsets is some coordinate's |
| `VdbBits.SetWordBit` | crates/elements-io/src/vdb/tree.rs:57-64 | setting a bit of a word changes that bit alone |
| `VdbBits.BitDoubles` | crates/elements-io/src/vdb/tree.rs:57-64 | bit 0 is the lowest, and each is worth twice the one below |
| `VdbBits.NewMask` | crates/elements-io/src/vdb/tree.rs:50-55 | no bit is set |
| `VdbBits.BitMask.Set` | crates/elements-io/src/vdb/tree.rs:57-60 | one bit more and no other changes |
| `VdbBits.BitMask.CountAfterSet` | crates/elements-io/src/vdb/tree.rs:66-68 | setting a clear bit adds one to the count |
| `VdbBits.BitMask.IterOnes` | crates/elements-io/src/vdb/tree.rs:70-72 | exactly the set bits, in increasing order |
| `VdbTree.LeafSetHolds` | crates/elements-io/src/vdb/tree.rs:98-146 | one more voxel in a leaf |
| `VdbTree.NodeSetHolds` | crates/elements-io/src/vdb/tree.rs:98-146 | one more voxel in an internal node, its child mask and its leaves still agreeing |
| `VdbTree.TreeSetHolds` | crates/elements-io/src/vdb/tree.rs:98-146 | one more voxel in the tree, masks and map keys agreeing at both levels |
| `VdbTree.Place` | crates/elements-io/src/vdb/tree.rs:121-140 | one voxel placed: everything placed before is still there and one more is active |
| `VdbTree.LinearScans` | crates/elements-io/src/vdb/tree.rs:115-120 | the dense array runs x first, then y, then z, with nothing between |
| `VdbTree.BuildTree` | crates/elements-io/src/vdb/tree.rs:98-146 | refused exactly for dims over 4096 or a wrong count; otherwise the tree holds the dense array and x * y * z voxels are active |
| `VdbTree.TreeIsDense` | crates/elements-io/src/vdb/tree.rs:98-146 | a lookup is active exactly inside dims and then gives that voxel's value; elsewhere the background |
| `LittleEndian.UnLeOfLe` | crates/elements-io/src/vdb/writer.rs:48-75 | reading an integer's bytes back gives it modulo what they hold |
| `LittleEndian.LeBytes` | crates/elements-io/src/vdb/writer.rs:52-54 | the four bytes of a number, lowest first |
| `LittleEndian.UnWordOfWord` | crates/elements-io/src/vdb/writer.rs:60-75 | a 64-bit word survives its bytes |
| `LittleEndian.WordSum` | crates/elements-io/src/vdb/writer.rs:60-62 | a word is the sum of its bytes, each worth 256 times the one before |
| `LittleEndian.UnHalfOfHalf` | crates/elements-io/src/vdb/writer.rs:52-70 | a 32-bit word survives its bytes |
| `VdbBytes.ReadTextBack` | crates/elements-io/src/vdb/writer.rs:77-81 | a string reads back exactly when its length fits the 32 bits written for it |
| `VdbBytes.MetaValue.LengthIsPayload` | crates/elements-io/src/vdb/writer.rs:123-131 | the length written is the payload's |
| `VdbBytes.DecodeBack` | crates/elements-io/src/vdb/writer.rs:111-151 | type name and payload determine the value |
| `VdbBytes.ReadMetaBack` | crates/elements-io/src/vdb/writer.rs:134-150 | a metadata value reads back |
| `VdbBytes.ReadMetadataBack` | crates/elements-io/src/vdb/writer.rs:154-164 | a list of entries reads back in order |
| `VdbFile.ReadMaskBack` | crates/elements-io/src/vdb/tree.rs:74-79 | a mask reads back bit for bit |
| `VdbFile.ReadOutlineBack` | crates/elements-io/src/vdb/tree.rs:312-321 | an internal node's masks read back, each leaf's with it, its value mask empty |
| `VdbFile.ReadTopologyBack` | crates/elements-io/src/vdb/tree.rs:290-324 | the topology pass reads back: one buffer, the background, no tile, one child at the origin, its value mask empty |
| `VdbFile.ReadNodesBack` | crates/elements-io/src/vdb/tree.rs:327-344 | the value pass, read against the topology, gives every leaf's mask and values |
| `VdbFile.RetreeTree` | crates/elements-io/src/vdb/tree.rs:290-344 | listing a tree by its masks and rebuilding it gives the same tree |
| `VdbFile.BuiltIsSound` | crates/elements-io/src/vdb/tree.rs:98-146 | a built tree's masks match its maps, as both passes need |
| `VdbFile.ReadDescriptorBack` | crates/elements-io/src/vdb/writer.rs:207-227 | name, type and the three offsets read back |
| `VdbFile.ReadTransformBack` | crates/elements-io/src/vdb/tree.rs:274-287 | the transform's words read back |
| `VdbFile.ReadGridBack` | crates/elements-io/src/vdb/tree.rs:218-270 | a reader that follows the three patched offsets decodes exactly the grid written and stops at its end position |
| `VdbWriter.PatchIs` | crates/elements-io/src/vdb/writer.rs:91-97 | overwriting a field of the same size changes it and nothing else |
| `VdbWriter.Patched` | crates/elements-io/src/vdb/tree.rs:267-269 | the three patches land in the three placeholders |
| `VdbWriter.ByteWriter.Raw` | crates/elements-io/src/vdb/writer.rs:43-46 | bytes at the position; at the end they are appended |
| `VdbWriter.ByteWriter.PatchU64At` | crates/elements-io/src/vdb/writer.rs:91-97 | eight bytes change, no other does, and the writer is back at the end |
| `VdbWriter.ByteWriter.Mask` | crates/elements-io/src/vdb/tree.rs:74-79 | the mask's words in order |
| `VdbWriter.ByteWriter.Metadata` | crates/elements-io/src/vdb/writer.rs:154-164 | the count, then each record |
| `VdbWriter.ByteWriter.GridDescriptor` | crates/elements-io/src/vdb/writer.rs:207-227 | the head and three placeholders, and where each placeholder is |
| `VdbWriter.ByteWriter.TreeTopology` | crates/elements-io/src/vdb/tree.rs:290-324 | the loops over maps and masks write the topology of the tree's list |
| `VdbWriter.ByteWriter.TreeData` | crates/elements-io/src/vdb/tree.rs:327-344 | the loops write the values of the tree's list |
| `VdbWriter.ByteWriter.OneGrid` | crates/elements-io/src/vdb/tree.rs:218-270 | descriptor, body and patches together are the encoding whose offsets are right |
| `VdbWriter.FindDuplicate` | crates/elements-io/src/vdb/tree.rs:190-196 | the first name that appeared before, if any |
| `VdbWriter.BuildAll` | crates/elements-io/src/vdb/tree.rs:198-201 | all trees, exactly when every grid fits; otherwise the dims are named when no tree holds them, and else the length of the first grid whose length is wrong |
| `VdbWriter.ArchiveHeader` | crates/elements-io/src/vdb/writer.rs:178-196 | the header's bytes, with the number of grids |
| `VdbWriter.GridsInFile` | crates/elements-io/src/vdb/tree.rs:209-213 | each grid sits in the file where the one before it ends |
| `VdbWriter.ReadGridsBack` | crates/elements-io/src/vdb/tree.rs:209-213 | end positions chain from grid to grid |
| `VdbWriter.ReadFileBack` | crates/elements-io/src/vdb/tree.rs:180-216 | reading the file gives the list of grids written |
| `VdbWriter.ReadFileFits` | crates/elements-io/src/vdb/tree.rs:180-216 | no file, however written, reads as 2^32 grids or a name of 2^32 bytes |
| `VdbWriter.BuiltIsField` | crates/elements-io/src/vdb/tree.rs:98-146 | a built tree is the dense field it was built from |
| `VdbWriter.EntriesTell` | crates/elements-io/src/vdb/tree.rs:231-260 | the five metadata entries: the name, a box from the origin to the last voxel, the class, and x * y * z voxels |
| `VdbWriter.BoxIsTight` | crates/elements-io/src/vdb/tree.rs:243-258 | in the file read back, that box is the least one around the active voxels, and that count is how many there are |
| `VdbWriter.FileOpens` | crates/elements-io/src/vdb/writer.rs:178-196 | the first 65 bytes: magic, versions 224, 12 and 0, offsets follow, the uuid, no metadata, and the number of grids |
| `VdbWriter.WriteFloatGrids` | crates/elements-io/src/vdb/tree.rs:180-216 | succeeds exactly for a non-empty list of distinctly named grids that fit 4096; the file then opens as the format says, and a reader gets back every name, metadata entry, scale and voxel, exactly when the names and their number fit 32 bits; otherwise which error, naming the first duplicate, and failing that the first wrong size |
| `ChannelFile.CheckedExactly` | crates/elements-ipc/src/channel.rs:83-110 | the checked arithmetic refuses exactly what would overflow 64 bits at any step, and otherwise gives the two sizes |
| `ChannelFile.EmptyChannelRefused` | crates/elements-ipc/src/channel.rs:83-110 | one of those steps overflows for a file of 64 bytes: no channels, enormous dims |
| `ChannelFile.CreatedOpens` | crates/elements-ipc/src/channel.rs:160-212 | a created file opens with the geometry it was created with |
| `ChannelFile.HeaderFields` | crates/elements-ipc/src/channel.rs:160-212 | the file `create` leaves, field by field: magic, version 1, dims, channels, buffer size, and 64 bytes before two buffers |
| `ChannelFile.MagicFirst` | crates/elements-ipc/src/channel.rs:160-212 | it starts with the bytes E, L, F and C |
| `ChannelFile.OpenedIsInBounds` | crates/elements-ipc/src/channel.rs:273-350 | an opened file is long enough for both buffers, whatever its bytes |
| `FrameChannels.CreatedIsSafe` | crates/elements-ipc/src/channel.rs:160-212 | a new channel satisfies the protocol's invariant |
| `FrameChannels.WriterStepsKeep` | crates/elements-ipc/src/channel.rs:231-250 | each step of a publish keeps it |
| `FrameChannels.ReaderStepsKeep` | crates/elements-ipc/src/channel.rs:375-417 | each step of a read keeps it |
| `FrameChannels.EveryRunIsSafe` | crates/elements-ipc/src/channel.rs:231-417 | it holds after every interleaving of word-level steps |
| `FrameChannels.NothingGoesBack` | crates/elements-ipc/src/channel.rs:231-417 | neither the sequence, the frames published nor the last sequence returned ever goes back |
| `FrameChannels.ReadIsWhole` | crates/elements-ipc/src/channel.rs:375-417 | a read returning sequence s >= 1 carries exactly the s-th published frame |
| `FrameChannels.TornMeansLapped` | crates/elements-ipc/src/channel.rs:375-417 | a torn result means at least three publishes completed during the call; no read is ever past its third attempt |
| `FrameChannels.GivesUpAtThird` | crates/elements-ipc/src/channel.rs:375-417 | a copy the writer has overtaken is tried again exactly twice |
| `FrameChannels.ZeroRead` | crates/elements-ipc/src/channel.rs:399-403 | sequence 0 carries, word by word, zeros or words of the publish in flight; all zeros exactly when every word copied after that publish had reached it is 0 |
| `FrameChannels.ZeroReadFails` | crates/elements-ipc/src/channel.rs:239-242 | with a publish in flight a read can return sequence 0 and its words |
| `FrameChannels.ZerosExactly` | crates/elements-ipc/src/channel.rs:239-242 | before anything is published, the buffer a reader copies is all zero exactly when no publish is in flight or every word it has written so far is 0 |
| `FrameChannels.UndisturbedRead` | crates/elements-ipc/src/channel.rs:375-417 | a read with no publish step beside it returns the latest frame, or before the first zeros, exactly when what the writer has written so far is 0 |
| `Framing.Stream.ReadUntilNewline` | crates/elements-ipc/src/protocol.rs:119-132 | up to and including the newline, or the limit, or the end |
| `Framing.Stream.ReadMessage` | crates/elements-ipc/src/protocol.rs:119-157 | the loop gives the next message and leaves what follows it |
| `Framing.FirstLine` | crates/elements-ipc/src/protocol.rs:119-157 | a line within the limit is read whole, keepalives included |
| `Framing.FirstMessage` | crates/elements-ipc/src/protocol.rs:119-157 | so the next message is that line's, or after a keepalive what follows |
| `Framing.ReadsBack` | crates/elements-ipc/src/protocol.rs:106-157 | any stream of messages and blank or CRLF keepalives, written one after another, reads back as exactly the messages, then the end |
| `Framing.WriteMessage` | crates/elements-ipc/src/protocol.rs:106-117 | whatever messages and keepalives were written before, a reader of the stream gets those messages and then this one, then a clean end |
| `Framing.OversizedIsRefused` | crates/elements-ipc/src/protocol.rs:119-157 | a message of 1,048,576 bytes or more is refused after one byte past that |
| `Framing.ControlClient.Recv` | addon/blender_elements/client.py:103-124 | for every chunking, the bytes up to the next newline, and the rest kept; it succeeds whenever the buffer cannot pass the limit |
| `Coverage.CheckCoverage` | crates/elements-ember/examples/common/mantaflow.rs:362-399 | accepts exactly when all three faces of every missing cell are walls; otherwise names a cell with another face |
| `Coverage.RefusalNamesFirst` | crates/elements-ember/examples/common/mantaflow.rs:384-397 | and that cell is the first such one |
| `Coverage.WallsExactly` | crates/elements-ember/examples/common/mantaflow.rs:362-399 | a missing cell passes exactly when it is solid or has a solid cell below it on all three axes |
| `Coverage.Measured` | crates/elements-ember/src/metrics.rs:180-205 | true exactly when all 27 cells around are fluid and in the smoke |
| `Coverage.Measure` | crates/elements-ember/src/metrics.rs:209-278 | the triple loop totals the metrics over the measured cells |
| `Coverage.DivergenceIsExact` | crates/elements-ember/src/metrics.rs:34-48 | for any flow of degree two without mixed terms, sampled at the faces, the divergence of a cell is the flow's at its centre |
| `Coverage.SlopeIsExact` | crates/elements-ember/src/metrics.rs:264-268 | a central difference is the flow's derivative there |
| `Coverage.CurlIsExact` | crates/elements-ember/src/metrics.rs:264-269 | and so the curl is the flow's |
| `Coverage.CentredIs` | crates/elements-ember/src/metrics.rs:156-176 | centring a component gives the flow at the centre, and a quarter of its own bend times the squared spacing |
| `Coverage.ShareIsExact` | crates/elements-ember/src/metrics.rs:258-271 | one measured cell adds that divergence to the maximum and the squares, half the flow's squared speed and the size of its curl times the cell's volume |
| `Coverage.FluidFaceKnown` | crates/elements-ember/examples/common/mantaflow.rs:362-399 | a face between two fluid cells is never a missing cell's in an accepted frame |
| `Coverage.CellUnchanged` | crates/elements-ember/src/metrics.rs:209-278 | a measured cell adds the same whatever the missing cells hold |
| `Coverage.MetricsUnchanged` | crates/elements-ember/src/metrics.rs:156-278 | in an accepted frame the velocity metrics do not depend on missing cells' faces or on faces at the far edge |
| `Meshes.MergedClosed` | crates/elements-ember/src/mesh.rs:112-116 | merging closed meshes keeps every directed edge once with its reverse once |
| `Meshes.MergedVolume` | crates/elements-ember/src/mesh.rs:112-116 | signed volumes add |
| `Meshes.MergedKeeps` | crates/elements-ember/src/mesh.rs:112-116 | merging moves no corner of any triangle |
| `Meshes.BoxClosed` | crates/elements-ember/src/mesh.rs:90-110 | a box mesh is closed |
| `Meshes.BoxVolume` | crates/elements-ember/src/mesh.rs:90-110 | its signed volume is the box's, outward wound |
| `Meshes.BoxSpans` | crates/elements-ember/src/mesh.rs:90-110 | a box mesh has the box's eight corners and no other |
| `Shacks.RowsFit` | crates/elements-ember/src/shack.rs:31-64 | the rows of planks end at the wall height or before it, whichever way they go, and one more would not |
| `Shacks.PlanksAreRim` | crates/elements-ember/src/shack.rs:43-56 | point by point, a row's four planks are the footprint's rim one thickness wide, and the roof overhangs it by a thickness |
| `Shacks.BoxesApart` | crates/elements-ember/src/shack.rs:31-64 | with spaced rows no two boxes overlap, whichever planks the rolls keep |
| `Shacks.ApartExactly` | crates/elements-ember/src/shack.rs:31-64 | for any pitch but 0, no choice of planks overlaps exactly when a row is no taller than the pitch, or alone, and the roof clears the row nearest to it |
| `Shacks.GapsSpace` | crates/elements-ember/src/shack.rs:31-64 | that is so for every gap that is not negative |
| `Shacks.Shack` | crates/elements-ember/src/shack.rs:31-64 | for all sizes and all rolls the mesh has indices in range, is closed, and its volume is the sum of its boxes'; positive with sizes that make walls, none overlapping with spaced rows |

## Left out

- wgpu calls, device loss and pipelines: each is "may fail here".
- Rounding in the kernels, metrics and meshes, whose arithmetic is over the reals. Square roots are an arbitrary function, and the widths of the VDB transform's numbers are kept as given bit patterns.
- Closed domains: a substep's schedule holds the removal of the mean, but what it computes is not modelled; the solves' results are for domains with an open face.
- The strategy of a node bounds its calls by a limit of its own, and a node does not catch an error one of its calls returned.
- Evaluator.EvalFrame: the `cfl_clamped` counter and the wording of errors are not part of the result.
- Timelines.Timeline.Goto: one graph and one domain size per timeline, as the daemon uses it; the start frame and the frame are below 2^32.
- Sessions.Session.Render: publishing the frame and loading a document are not part of this model; reading back may fail.
- Plans.Plan.Expected: which of several errors is met first depends on the order in which nodes without a path between them run, so orders are only promised to agree on success.
- FieldPools.FieldPool.Acquire: a bucket is a count of idle textures; which of them is handed out is modelled in `Tenancy` only.
- StateStores.StateStore.Snapshot: a map from slots to copies, where the code keeps a list.
- Kernels.Level.ResidualIs: solid cells hold 0 and are not numbered among a level's cells; the prolongation's weights are any matrix, of which `FluidCells` shows the kernels' to be one.
- Kernels.Level.RelaxIs: a sweep's order inside one colour, which `Kernels.Level.RaceFree` shows not to matter.
- FluidCells.Bound.Residual: the square root of a cell's fluid fraction is any function that is not negative, and a level's other numbers are given.
- Transfers.Restrict: holds for any renormalisation of a fine cell, of which `Renormalisation.ProlongNorm` is the kernels'; their texture bounds are not part of this model.
- Mgpcg.Solver.Record: the reduction is one sum, and nothing but a flush fails.
- Substeps.Substep.Kernel: a stage's kernel is any dispatches of its pass over fields that include those it is sure to bind; what it computes is modelled for the pressure solve only.
- Tenancy.TexturePool.Release: fields are single textures; their formats and sizes are not distinguished.
- VdbBits.BitMask.Set: masks and trees are values, not updated in place.
- VdbWriter.WriteFloatGrids: file-system errors; files of 2^64 bytes or more, whose offsets do not fit.
- The single-grid `write_float_grid`, which is a list of one.
- FrameChannels.ReadIsWhole: words are written and read atomically and in order; the hardware memory model, an in-place reallocation during a read and a wrap of the sequence at 2^64 are not modelled.
- Framing.Stream.ReadMessage: a message is its line; parsing JSON and UTF-8 is not modelled.
- Framing.ControlClient.Recv: the client does not skip blank lines, as the code does not.
- Coverage.Measure: the density half of the metrics and `outflow_rate`, which does not consult the solid mask; cells are functions of their indices rather than offsets into an array.
- Meshes.BoxClosed: `from_obj`, `validate` and its limits.
- Shacks.Shack: the roll that keeps a plank is a parameter, so the result holds for every roll; a plank height and gap that cancel, which would ask for endless rows.
- Transforms, emitters, colliders and fire chemistry, command lines, sockets, the Blender add-on's interface, image and array output: easy members or text.
