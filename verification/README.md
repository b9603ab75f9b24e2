# Verified model of Saccade's detection, hand-off and codec core

This project states in Dafny what five parts of Saccade compute and keep, and proves it for all inputs, runs and
interleavings.

* `Rasters`, `Labelling`, `Targets`, `Frames`, `Detector`, `Scopes`: the reference CPU detector. A one-pass labeller
  with a union-find forest over at most 128 labels is proved to find the 4-connected components of the thresholded
  picture. `Labelling` says what the pass does to sets of pixels, `Detector` is the pass over arrays, `Targets` is the
  report, `Frames` and `Scopes` relate it to strided host buffers seen through a scope rectangle.
* `HandleTables`, `TargetPackets`, `PacketLayouts`, `ModelFiles`, `CpuBackend`, `CpuDeliveries`: the reference provider
  around the detector, with its handle tables, its packet writer and reader, its model bytes, and its submit, poll,
  wait, collect, cancel, reset and synchronize operations. Every method keeps one invariant over the three tables and
  says how it changes them; `CpuDeliveries` leads from a description to the bytes collected for it.
* `DirectMlHandoff`, `DirectMlRuns`, `DirectMlTraces`, `DirectMlCallers`, `DirectMlCalls`: the protocol between a
  client thread and the DirectML worker thread, as interleaved steps over the shared slot, state word, flags and
  events, with the invariant that each step keeps; what holds in every run; which runs are right, exactly, with the
  ones that go wrong written out; which rule for the client's own steps makes all its runs right; and where each call
  leads.
* `MockFaults`, `MockInference`, `MockAccessibility`: the mock provider's bounded ticket machines, with counters equal
  to what they count, a `synchronize` that needs at most three passes, and snapshots paired with completed tickets.
* `OverlayScenes`, `OverlayRing`, `OverlayRenderer`: the overlay renderer's three slots, guarded by fence values, with
  a GPU that runs queued work later, thread by thread. Where expanding static instances only when an epoch changes
  equals expanding them every time is characterised for every reachable ring.
* `JsonStrings`, `JsonEscapes`: the MCP server's JSON string decoder and escaping writer, against UTF-8 (sections 3
  and 4 of RFC 3629) and the string escapes of section 7 of RFC 8259.

`Statuses` holds the result codes, ticket states and integer ranges they share, `Sets` counts finite sets, `Words` has
little-endian words. Code that works on arrays and fields is written as methods and classes and proved equal to a
specification function, about which the lemmas speak.

Where the code and a plain reading of its promises differ, the code is modelled as it is:

* A lone low-surrogate escape is accepted by `decode_string` and written as four bytes that are not UTF-8
  (`tools/mcp_server.cpp:110-120`); `JsonStrings.LoneLowIsAccepted` shows it and `JsonStrings.WellFormedExactly` gives
  the exact condition.
* The completion event is set after the final state is stored, so a caller that sees the state first can release the
  ticket and submit the next one before the event of the old one is set, and that event then lets the next ticket's
  waiter through (`backends/d3d12/directml_provider.cpp:193-194`). A submission is sound under every continuation
  exactly if submit does not clear the event while the worker still owes it (`DirectMlTraces.TimelyResetExactly`). A
  client that waits until it is told of a final state does not avoid this, as `wait` does not look at the event of an
  ended ticket (`DirectMlCallers.WaitingIsNotEnough`); nor does one that polls, as the coordinator in
  `src/scheduler/neural_coordinator.cpp:186-223` does. What avoids it, exactly, is to submit only after being let
  through by the event of the ticket before, or after recreating the context (`DirectMlCallers.CarefulExactly`).
* A cancel that answers OK can leave its ticket COMPLETE (`DirectMlTraces.CancelCanComeTooLate`); it leaves it
  CANCELLED exactly if the request comes before the worker's last look at the flag
  (`DirectMlRuns.CancelEndsCancelledExactly`).
* Frames whose scene and transform epochs are both zero match an unused overlay slot
  (`backends/d3d12/overlay_renderer.cpp:666-667`); `OverlayRing.SlotShowsExactly` says exactly which slots are right.
* `decode_output` does not compare the target count with the size (`backends/reference_cpu/reference_cpu.cpp:389-411`);
  `TargetPackets.ReadsInsideExactly` says exactly when it stays inside its bytes.
* `submit` does not check the frame against its buffer, and a scope that starts beyond it wraps the size around
  (`backends/reference_cpu/reference_cpu.cpp:492-499`); `Frames.ScopeReadsInsideExactly` gives the exact condition.

## Model

| member | source | states |
|---|---|---|
| Labelling.BlobsAreComponents | backends/reference_cpu/reference_cpu.cpp:265-346 | the label sets left by one left-to-right, top-to-bottom pass over runs, empty ones aside, are exactly the 4-connected components of the pixels at or above the threshold, each once |
| Labelling.BlobsCountOpeningRuns | backends/reference_cpu/reference_cpu.cpp:285-326 | the number of labels handed out is the number of maximal foreground runs with no foreground pixel directly above them |
| Labelling.AddRunPartition | backends/reference_cpu/reference_cpu.cpp:285-338 | adding one maximal run, joined to every label it touches from above and to no other, keeps the labels a partition of the pixels seen into sets that are connected and have no neighbours elsewhere |
| Detector.AccumulatorsConserve | backends/reference_cpu/reference_cpu.cpp:257-346 | at every point of the scan the areas of the used roots add up to the foreground pixels scanned and their luma sums to those pixels' luma, so no union loses or double-counts a pixel |
| Detector.RootOf | backends/reference_cpu/reference_cpu.cpp:257-263 | following parent links from any label ends, at the one root of its tree, although parents may point to higher or lower labels |
| Detector.HangLinks | backends/reference_cpu/reference_cpu.cpp:300-310 | hanging one root under another keeps the parent links an acyclic forest in which every label still finds a root |
| Detector.Unite | backends/reference_cpu/reference_cpu.cpp:300-310 | a union merges box, area and luma sum so that the root measures exactly the union of both pixel sets, empties the other label, and keeps both label rows pointing at the right sets |
| Detector.GatherRun | backends/reference_cpu/reference_cpu.cpp:285-311 | looking at the row above, columns inside the run only, joins precisely the sets that touch the run |
| Detector.FollowRun | backends/reference_cpu/reference_cpu.cpp:273-283 | the inner loop stops at the end of the maximal run and has its luma sum |
| Detector.PlaceRun | backends/reference_cpu/reference_cpu.cpp:313-335 | the run goes to the gathered root or opens a label, and is refused exactly when all 128 labels are taken |
| Detector.LabelRow | backends/reference_cpu/reference_cpu.cpp:266-339 | scanning a row keeps arrays, forest and sets in step; giving up means that the whole picture needs more than 128 labels |
| Detector.SettleRow | backends/reference_cpu/reference_cpu.cpp:340-344 | afterwards every label in the row is a root |
| Detector.CollectTargets | backends/reference_cpu/reference_cpu.cpp:348-370 | one target for each root with at least the minimum area, in label order, or refusal exactly when there are more than 32 |
| Detector.InsertInPlace | backends/reference_cpu/reference_cpu.cpp:373-384 | one round of the insertion sort places its target after every earlier one that does not come later |
| Detector.SortTargets | backends/reference_cpu/reference_cpu.cpp:372-385 | the in-place insertion sort yields the stable sorted sequence |
| Detector.Detect | backends/reference_cpu/reference_cpu.cpp:231-387 | the detector's status and targets are the specified ones for every frame and model |
| Targets.SortedTargetsStable | backends/reference_cpu/reference_cpu.cpp:372-385 | the sorted sequence is in (y, x) order, a rearrangement of the targets, and keeps equal corners in discovery order |
| Targets.FoundIsLargeComponents | backends/reference_cpu/reference_cpu.cpp:348-352 | the roots reported are the components with at least the minimum area, each once, and there are as many as such components |
| Targets.DetectionIsComponents | backends/reference_cpu/reference_cpu.cpp:265-386 | on success the targets are one-to-one with the 4-connected components of at least the minimum area, in stable (y, x) order; each box holds every pixel of its component and has one in each outer column and row, with the exact area, the middle of the box as safe point, the rounded mean luma and the hashed id; CAPACITY exactly when more than 128 runs open a component or there are more than 32 such components, and then there are no targets |
| Targets.PortraysOnce | backends/reference_cpu/reference_cpu.cpp:358-368 | a component has only one target of which all that is true |
| Targets.TargetIdIsHash | backends/reference_cpu/reference_cpu.cpp:141-154 | the stable id is the FNV-1a hash of frame id, corner and size as five little-endian 64-bit words, and 1 where that is zero |
| Targets.Fnv1aVectors | backends/reference_cpu/reference_cpu.cpp:142-151 | the hash of two published test texts |
| Targets.ConfidenceBounds | backends/reference_cpu/reference_cpu.cpp:274-282 | confidence lies between 257 times the threshold and 65535 and within 128/255 of 65535 times the mean luma over 255; area, luma sum and numerator fit their 32 and 64 bits |
| Targets.BoxIsTight | backends/reference_cpu/reference_cpu.cpp:302-305 | each side of the reported box touches a pixel of the component |
| Targets.BoxCoversComponent | backends/reference_cpu/reference_cpu.cpp:358-364 | width times height is never below the component's area |
| Frames.ValidateFrameExact | backends/reference_cpu/reference_cpu.cpp:109-128 | a frame is accepted exactly when it is within the limits, of a known format, with rows that do not overlap and every pixel inside the buffer |
| Frames.SizesDoNotWrap | backends/reference_cpu/reference_cpu.cpp:115-126 | within the size limits the three wrap-around guards never fire |
| Frames.ScopeIsCrop | backends/reference_cpu/reference_cpu.cpp:492-499 | the shifted view shows exactly the cropped picture and every pixel it reads is inside the buffer |
| Frames.PixelLumaExactly | backends/reference_cpu/reference_cpu.cpp:130-139 | the luma is the byte itself in R8, else (77 R + 150 G + 29 B) / 256 rounded to the nearest, from the bytes where each format has its channels |
| Frames.ScopedViewAccepted | backends/reference_cpu/reference_cpu.cpp:109-128 | for a frame whose pixels lie in its buffer, a view through any scope inside it is accepted exactly when the scope is within 1024 by 1024 |
| Frames.ScopeReadsInsideExactly | backends/reference_cpu/reference_cpu.cpp:492-499 | once the shifted view is accepted, every pixel looked at through the scope lies in the buffer exactly if the scope's first pixel starts in it; otherwise the size handed on has wrapped around |
| Frames.ScopeCanStartOutside | backends/reference_cpu/reference_cpu.cpp:492-499 | a frame that claims more rows than its buffer holds, with a scope beyond the buffer, is accepted and read outside |
| Scopes.ScopeEqualsCroppedCopy | backends/reference_cpu/reference_cpu.cpp:492-514 | detecting through a scope equals detecting on any frame that shows the cropped picture, then shifting by the scope's origin |
| Scopes.ScopedReportIsComponents | backends/reference_cpu/reference_cpu.cpp:492-514 | the shifted targets are, in frame coordinates, about the components of the foreground inside the scope, each once and in stable order, with box, area, safe point, confidence and id true of it; each failing status exactly when it occurs: a refused view, or too many components |
| Scopes.SortShifts | backends/reference_cpu/reference_cpu.cpp:506-514 | sorting and then shifting is the same as shifting and then sorting |
| Scopes.ComponentMoves | backends/reference_cpu/reference_cpu.cpp:506-514 | translating a pixel set translates its components |
| TargetPackets.SerializeOutput | backends/reference_cpu/reference_cpu.cpp:171-212 | the writer fills the destination with the packet or, when it does not fit, answers 0 and leaves it alone |
| TargetPackets.DecodeOutput | backends/reference_cpu/reference_cpu.cpp:389-426 | for any bytes the reader answers what they decode to, rejects them, or goes on to read beyond them |
| TargetPackets.ReadsInsideExactly | backends/reference_cpu/reference_cpu.cpp:389-426 | every read of the reader is inside the bytes exactly if the header is rejected or announces no more records than the bytes hold |
| TargetPackets.ReadsCanBeOutside | backends/reference_cpu/reference_cpu.cpp:389-411 | a 104-byte packet that announces one record is accepted, and the record is read outside it |
| TargetPackets.PacketRoundTrip | backends/reference_cpu/reference_cpu.cpp:171-212 | reading a written packet gives back its frame id, epochs and targets in order, each area replaced by that of the box, if and only if every coordinate and confidence fits its field |
| PacketLayouts.PacketStands | backends/reference_cpu/reference_cpu.cpp:171-212 | every header and record field of a written packet stands at its byte offset |
| PacketLayouts.AcceptsExactly | backends/reference_cpu/reference_cpu.cpp:389-400 | the reader goes past the header exactly if the eight fields it checks, at their offsets, hold what they should |
| PacketLayouts.DecodingTakes | backends/reference_cpu/reference_cpu.cpp:401-425 | the reader takes each epoch and each target field from its own offset, dividing fixed-point coordinates toward zero |
| TargetPackets.Q8Exact | backends/reference_cpu/reference_cpu.cpp:198-203 | a coordinate survives the shift by 8 and the truncating division by 256 exactly when it lies in [-2^23, 2^23) |
| TargetPackets.FieldsRoundTrip | backends/reference_cpu/reference_cpu.cpp:192-209 | decoding consecutive little-endian fields undoes encoding them |
| HandleTables.HandlesAreNeverReused | src/core/handle_table.hpp:41-104 | a handle is new when it is handed out and, once handed out, stays so through every put, erase and emplace: a stale handle never comes back to life |
| HandleTables.FullExactly | src/core/handle_table.hpp:48-61 | emplacing fails exactly when every slot is occupied or has used up its generations |
| HandleTables.HandleLayout | src/core/handle_table.hpp:179-200 | a handle is generation and slot number plus one in its two halves; the first free slot is taken; erasing raises the generation and retires the slot exactly at 2^32 - 1 |
| HandleTables.EraseLaws | src/core/handle_table.hpp:88-104 | erasing ends one handle and leaves every other with its record |
| HandleTables.EmplaceLaws | src/core/handle_table.hpp:41-62 | emplacing adds one live, nonzero handle that was not live and leaves every other with its record |
| CpuBackend.Backend.constructor | backends/reference_cpu/reference_cpu.cpp:428-455 | a new provider satisfies the invariant |
| ModelFiles.ModelRoundTrip | backends/reference_cpu/reference_cpu.cpp:156-169 | the model bytes accepted are exactly the encodings of parameters with a positive minimum area, and they parse to the parameters they encode |
| ModelFiles.ParseExactly | backends/reference_cpu/reference_cpu.cpp:156-169 | model bytes are accepted exactly if they are the letters SCM1, a threshold, three zeros and a positive little-endian area, and are read from there |
| CpuBackend.Backend.CreateModel | backends/reference_cpu/reference_cpu.cpp:647-668 | exact status over bytes, stable id, device, flags and table; the new model; the invariant is kept: context and active-ticket counts equal what they count, counted tickets have live contexts and models, finished tickets hold the outcome of their own submission |
| CpuBackend.Backend.DestroyModel | backends/reference_cpu/reference_cpu.cpp:670-683 | BUSY exactly while a live context uses the model |
| CpuBackend.Backend.CreateContext | backends/reference_cpu/reference_cpu.cpp:685-710 | status for every input; on success the new context, and its model, which alone changes, counts one context more |
| CpuBackend.Backend.DestroyContext | backends/reference_cpu/reference_cpu.cpp:712-730 | BUSY exactly while a counted ticket occupies the context; on success its model counts one context less, never decremented at zero |
| CpuBackend.Backend.Submit | backends/reference_cpu/reference_cpu.cpp:732-781 | exact status from the description's fields, the context, the frame and the tables; the new ticket carries the description's frame, scope, epochs and source and the frame's id, field by field, and the context counts it; no change on failure |
| CpuBackend.Backend.RunTicket | backends/reference_cpu/reference_cpu.cpp:480-526 | a queued ticket becomes complete with the packet of its scoped detections or fails with the detector's status; the two stale and the capacity branches are never taken |
| CpuBackend.Backend.Poll | backends/reference_cpu/reference_cpu.cpp:783-795 | runs the ticket if queued and reports its state, result, epochs and sizes field by field; terminal tickets do not change |
| CpuBackend.Backend.Wait | backends/reference_cpu/reference_cpu.cpp:797-814 | TIMEOUT exactly for a queued ticket and zero timeout; otherwise the ticket reported is terminal |
| CpuBackend.Backend.Collect | backends/reference_cpu/reference_cpu.cpp:816-844 | exact status; a completed ticket is handed over as the packet of its own frame, scope and epochs, showing the components inside the scope, and read back as such while coordinates stay below 2^23; the ticket is erased and its place given back exactly when handed over, cancelled or failed |
| CpuBackend.Backend.Cancel | backends/reference_cpu/reference_cpu.cpp:846-863 | only a queued ticket can be cancelled; its context counts one ticket less |
| CpuBackend.Backend.Reset | backends/reference_cpu/reference_cpu.cpp:865-890 | exactly the context's tickets are erased; the explicit zeroing of its count changes nothing |
| CpuBackend.Backend.Synchronize | backends/reference_cpu/reference_cpu.cpp:892-911 | every queued ticket of the context is run and no other ticket changes, or TIMEOUT exactly when one is queued and there is no time |
| CpuBackend.RunsEvolve | backends/reference_cpu/reference_cpu.cpp:647-911 | in every run from empty tables by any sequence of the operations' changes the books balance at all times, tickets keep the submission they were made with, terminal tickets do not change and erased ones do not return; every method states that it makes such changes |
| CpuBackend.EraseKeeps | backends/reference_cpu/reference_cpu.cpp:470-478 | giving a ticket's place back and erasing it keeps the invariant, and no count is decremented at zero |
| CpuBackend.CancelKeeps | backends/reference_cpu/reference_cpu.cpp:859-862 | cancelling keeps the invariant, leaving the ticket behind uncounted |
| CpuBackend.SubmitKeeps | backends/reference_cpu/reference_cpu.cpp:762-780 | adding a ticket below the queue capacity keeps the invariant |
| CpuBackend.ReportDelivers | backends/reference_cpu/reference_cpu.cpp:480-526 | the bytes of a successful report are the packet of the submission's own frame and epochs, its targets are the components inside the scope, and while coordinates stay below 2^23 reading the bytes gives those back, with box areas that are never below the true ones |
| CpuDeliveries.SubmissionIsDelivered | backends/reference_cpu/reference_cpu.cpp:732-844 | from submit to collect over any operations in between: the ticket stays that description's, and once it is COMPLETE its bytes are a packet with the description's epochs and the frame's id about exactly the components of the frame's own pixels inside the description's scope |
| DirectMlRuns.RunKeepsInvariant | backends/d3d12/directml_provider.cpp:191-342 | the invariant holds in every state of every run, however client and worker steps interleave; runs in which reset is called must be timely: submit clears the completion event only after the worker has set it for the ticket before |
| DirectMlRuns.TimelyRunsAreRight | backends/d3d12/directml_provider.cpp:831-909 | in every timely run, with the two writes of complete as two steps and with resets, whoever passes the completion event in wait, synchronize, cancel or reset finds the ticket ended, and release_ticket never runs inside the worker's use of the ticket |
| DirectMlTraces.TimelyResetExactly | backends/d3d12/directml_provider.cpp:779-805 | after a timely history, a submission is sound under every continuation with timely submissions if and only if the worker does not still owe the event of the ticket before when submit clears it |
| DirectMlTraces.TimelyExactly | backends/d3d12/directml_provider.cpp:779-805 | a run is timely if and only if it is sound, in that sense, at each of its points |
| DirectMlTraces.LateResetMisleads | backends/d3d12/directml_provider.cpp:191-195 | from every state in which submit has cleared an event still owed, each of wait, synchronize, cancel and reset can be let through while that very submission is still QUEUED |
| DirectMlCallers.CarefulExactly | backends/d3d12/directml_provider.cpp:779-925 | a rule for the client's own steps, with its converse: all runs in which the client takes these steps or a beginning of them are timely, whatever the worker does, if and only if between any two submissions the client has been let through by the event of the first (a cancel that answered OK, or a wait, synchronize or reset that blocked) or has joined the worker by destroying the context, or the two writes of complete are one step |
| DirectMlCallers.CarelessCanBeLate | backends/d3d12/directml_provider.cpp:779-805 | any run of a client that breaks the rule can be rescheduled, the client's steps unchanged, so that submit clears an event still owed |
| DirectMlCallers.ReleaseExactly | backends/d3d12/directml_provider.cpp:337-342 | in a timely run a ticket is released with its event set if and only if the next submission, whatever comes before it, cannot clear an event that is still owed |
| DirectMlCallers.EarlyReleaseCanBeLate | backends/d3d12/directml_provider.cpp:337-342 | from a release with the event unset the client alone goes on to submit with the event still owed |
| DirectMlCallers.WaitingIsNotEnough | backends/d3d12/directml_provider.cpp:831-872 | a client that is told by poll or wait of the final state, collects and submits again can clear an event that is still owed |
| DirectMlRuns.PatientRunsAreTimely | backends/d3d12/directml_provider.cpp:337-342 | runs in which every ticket is released with its event set are timely; the event itself is not visible to callers |
| DirectMlRuns.AtomicRunsAreTimely | backends/d3d12/directml_provider.cpp:191-195 | were the two writes of complete one step, every run would be timely |
| DirectMlTraces.EventMeansEndedExactly | backends/d3d12/directml_provider.cpp:831-909 | each waiting call finds its ticket ended past the event, in all runs, if and only if the two writes of complete are one step |
| DirectMlTraces.ReleaseIsSafeExactly | backends/d3d12/directml_provider.cpp:337-342 | release_ticket never runs inside the worker's use of the ticket, in all runs, if and only if the two writes are one step or reset is never called |
| DirectMlTraces.WaitCanPassEarly | backends/d3d12/directml_provider.cpp:191-195 | with the two writes apart a reachable state has wait past its event while its ticket is only QUEUED |
| DirectMlTraces.ResetCanReleaseEarly | backends/d3d12/directml_provider.cpp:892-909 | with the two writes apart reset can reach release_ticket while the worker is inside the ticket |
| DirectMlRuns.EarlyEventIsLateSignal | backends/d3d12/directml_provider.cpp:193-194 | a set event with a pending ticket was set for an earlier submission; a signal for the present one means it ended |
| DirectMlRuns.WorkerOwnsItsSubmission | backends/d3d12/directml_provider.cpp:197-301 | the worker touches output and result only between the QUEUED store and the final store of the submission it claimed; meanwhile the client neither fills, copies nor releases the slot, and reads its result and size only to report a pending state |
| DirectMlRuns.ReportsAreFinal | backends/d3d12/directml_provider.cpp:807-842 | a final state that poll or wait reports is the ticket's last, and the result and output reported with it are those of its end |
| DirectMlRuns.EachSubmissionOnce | backends/d3d12/directml_provider.cpp:321-329 | submissions are started and ended in order, each exactly once, none skipped |
| DirectMlRuns.DeliveriesAreComplete | backends/d3d12/directml_provider.cpp:855-871 | collect copies bytes only after COMPLETE was stored for the same submission, the bytes are that submission's, and none is copied out twice |
| DirectMlRuns.EndsAsItShould | backends/d3d12/directml_provider.cpp:293-300 | CANCELLED only if requested, COMPLETE exactly with an OK result and exactly with the submission's own bytes |
| DirectMlRuns.CancelEndsCancelledExactly | backends/d3d12/directml_provider.cpp:874-890 | in a timely run a cancel or reset that is let through leaves its ticket CANCELLED if and only if the worker had not yet made its last check of the cancel flag when the request was stored |
| DirectMlTraces.CancelCanComeTooLate | backends/d3d12/directml_provider.cpp:883-889 | a cancel that answers OK can leave its ticket COMPLETE, with the two writes apart or as one step |
| DirectMlRuns.EndsWithinElevenSteps | backends/d3d12/directml_provider.cpp:321-329 | no wakeup is lost: a handed-over ticket has ended with its event set after at most eleven worker steps |
| DirectMlRuns.WorkerCanMove | backends/d3d12/directml_provider.cpp:321-342 | no deadlock: whenever the client waits for the worker in vain, the worker can take a step |
| DirectMlRuns.StopIsSeen | backends/d3d12/directml_provider.cpp:344-351 | a worker told to stop comes nearer to its exit with each step, whatever signals were merged or left over |
| DirectMlRuns.LiveFlagsNest | backends/d3d12/directml_provider.cpp:721-777 | a ticket is active only under a live context, a context is live only under a live model |
| DirectMlRuns.HandleNamesItsSubmission | backends/d3d12/directml_provider.cpp:858-870 | a ticket handle matches a later submission exactly when the number of releases between them is a multiple of 2^32 - 1 |
| DirectMlCalls.CollectFrees | backends/d3d12/directml_provider.cpp:844-872 | in every timely run and for every ended ticket, whether COMPLETE, CANCELLED or FAILED, the steps of collect alone lead to an empty slot, one generation later, with the handle stale and the next submission possible; bytes are delivered exactly for COMPLETE |
| DirectMlCalls.ResetFrees | backends/d3d12/directml_provider.cpp:892-909 | reset does so too, delivering nothing: by its own steps for an ended ticket, with the worker's help alone for a pending one |
| DirectMlCalls.CancelReturns | backends/d3d12/directml_provider.cpp:874-890 | cancel of a pending ticket comes back, with the worker's help alone, to an ended ticket that is still in its slot |
| DirectMlCalls.WaitReturns | backends/d3d12/directml_provider.cpp:821-842 | wait on a pending ticket comes back, with the worker's help alone, and reports the final state |
| DirectMlCalls.SynchronizeReturns | backends/d3d12/directml_provider.cpp:911-925 | synchronize comes back and leaves the ended ticket in its slot |
| DirectMlCalls.SubmitHandsOver | backends/d3d12/directml_provider.cpp:779-805 | submit into a live context with an empty slot succeeds by its own steps: the next submission is QUEUED with a cleared cancel flag and event, and the worker is signalled |
| DirectMlCalls.WorkerServes | backends/d3d12/directml_provider.cpp:197-301 | the worker alone ends a queued ticket as its work and the cancel flag say: CANCELLED, COMPLETE with its bytes, or FAILED with the result that the work answered |
| DirectMlCalls.ContextBegins | backends/d3d12/directml_provider.cpp:731-761 | create_context comes back with a live context and a listening worker when the worker starts |
| DirectMlCalls.ContextGivesUp | backends/d3d12/directml_provider.cpp:731-761 | it comes back with neither, ready to be tried again, when the worker does not start |
| DirectMlCalls.ContextEnds | backends/d3d12/directml_provider.cpp:763-777 | destroy_context comes back, with the worker's help alone, with no worker, no context and a model that can be destroyed |
| DirectMlCalls.IdleCallsExactly | backends/d3d12/directml_provider.cpp:600-925 | which calls go ahead outside of any call, exactly; the others are refused |
| DirectMlCalls.TimesOut | backends/d3d12/directml_provider.cpp:831-836 | a wait or synchronize that times out leaves everything as it is |
| DirectMlCalls.OneWayOn | backends/d3d12/directml_provider.cpp:779-925 | inside a call the client has one way on, unless it waits |
| DirectMlHandoff.GenerationsAreOneCycle | backends/d3d12/directml_provider.cpp:58-61 | two generations agree exactly when they are a multiple of 2^32 - 1 advances apart |
| DirectMlHandoff.EveryGenerationOccurs | backends/d3d12/directml_provider.cpp:58-61 | the cycle runs through every nonzero 32-bit value |
| MockFaults.FaultFiresExactly | backends/mock/mock_backend.cpp:242-252 | an armed fault answers its point exactly as often as it was armed for |
| MockFaults.OtherPointsAreSpared | backends/mock/mock_backend.cpp:242-252 | at any other point the fault neither answers nor wears off |
| MockInference.RunningWithinActive | backends/mock/mock_backend.cpp:254-315 | running is at most active, active at most the queue capacity, running at most the in-flight bound |
| MockInference.Provider.constructor | backends/mock/mock_backend.cpp:233-240 | a new provider satisfies the invariant; the capacity is clamped into 1..8 |
| MockInference.MoveKeeps | backends/mock/mock_backend.cpp:254-276 | any change of a counted ticket within the in-flight bound keeps active equal to the counted and running equal to the RUNNING tickets |
| MockInference.EraseKeeps | backends/mock/mock_backend.cpp:306-315 | giving counts back and erasing keeps the invariant, and no counter is decremented at zero |
| MockInference.Provider.CreateModel | backends/mock/mock_backend.cpp:590-607 | exact status over bytes, stable id, device, flags and table; the invariant is kept |
| MockInference.Provider.CreateContext | backends/mock/mock_backend.cpp:624-651 | status for every input; on success the new context, and its model, which alone changes, counts one context more |
| MockInference.Provider.DestroyContext | backends/mock/mock_backend.cpp:653-671 | BUSY exactly while a counted ticket occupies the context; on success its model counts one context less, never decremented at zero |
| MockInference.Provider.DestroyModel | backends/mock/mock_backend.cpp:609-622 | BUSY exactly while a live context uses the model |
| MockInference.Provider.Submit | backends/mock/mock_backend.cpp:673-727 | exact status from the description's fields, the queue bound, the fault and the table; a ticket that needs no polls starts complete and is still counted |
| MockInference.Provider.StartInference | backends/mock/mock_backend.cpp:254-266 | a queued ticket starts exactly when fewer tickets run than the in-flight bound |
| MockInference.Provider.FinishInference | backends/mock/mock_backend.cpp:278-294 | one poll brings a ticket that may run one poll nearer completion and changes nothing else |
| MockInference.Provider.CompleteInference | backends/mock/mock_backend.cpp:296-304 | a pending ticket completes at once exactly when it may run |
| MockInference.Provider.Wait | backends/mock/mock_backend.cpp:744-766 | TIMEOUT, BUSY and OK exactly; OK means terminal |
| MockInference.Provider.Collect | backends/mock/mock_backend.cpp:768-796 | which states are handed over, kept or erased; FAILED does not occur; the bytes handed over hold the frame id and epochs of the ticket's own submission, each at its offset |
| MockInference.OutputStands | backends/mock/mock_backend.cpp:707-716 | the 32 output bytes hold the frame id and the model, session and transform epochs at offsets 0, 8, 16 and 24 |
| MockInference.Provider.Cancel | backends/mock/mock_backend.cpp:798-816 | exactly the pending tickets can be cancelled |
| MockInference.Provider.Reset | backends/mock/mock_backend.cpp:818-844 | exactly the context's tickets are erased and its counters are zero |
| MockInference.Provider.SweepOnce | backends/mock/mock_backend.cpp:872-880 | one pass that meets a pending ticket completes one, leaves none running, and, if none was running before it, leaves none pending |
| MockInference.Provider.Synchronize | backends/mock/mock_backend.cpp:846-888 | with time and no fault: never BUSY, at most three passes, every pending ticket of the context completed and nothing else changed |
| MockInference.SweepEnds | backends/mock/mock_backend.cpp:872-886 | a pass without progress would need running tickets at the in-flight bound with none running |
| MockAccessibility.SnapshotsPairWithTickets | backends/mock/mock_backend.cpp:317-344 | live snapshots and COMPLETE tickets are in bijection, each naming the other, and active counts the pending tickets |
| MockAccessibility.PendingLeavesRoom | backends/mock/mock_backend.cpp:328-331 | while a ticket is pending the snapshot table has room, unless one of its slots is retired |
| MockAccessibility.FinishedKeeps | backends/mock/mock_backend.cpp:317-344 | a poll keeps the invariant and fails no ticket while no snapshot slot is retired |
| MockAccessibility.PollFailsExactly | backends/mock/mock_backend.cpp:321-337 | a poll fails a ticket if and only if it is the last poll of a pending one and the snapshot table has no room, which takes a retired slot |
| MockAccessibility.PollCanFail | backends/mock/mock_backend.cpp:328-334 | consistent books in which the next poll fails its ticket |
| MockAccessibility.Provider.Finish | backends/mock/mock_backend.cpp:317-344 | the in-place update is the specified one |
| MockAccessibility.Provider.Request | backends/mock/mock_backend.cpp:1253-1297 | exact status from the query's fields, the queue bound, the fault and the table; a request that needs no polls is complete on return |
| MockAccessibility.Provider.Poll | backends/mock/mock_backend.cpp:1299-1317 | one poll, and cancelled or failed tickets are erased once reported |
| MockAccessibility.Provider.Wait | backends/mock/mock_backend.cpp:1319-1344 | TIMEOUT exactly for a pending ticket and no time; otherwise the report is terminal |
| MockAccessibility.Provider.Collect | backends/mock/mock_backend.cpp:1346-1393 | exact status; the packet handed out names the snapshot and carries the query of the COMPLETE ticket that owns it, each field at its offset |
| MockAccessibility.SnapshotPacketDecodes | backends/mock/mock_backend.cpp:1359-1391 | header and record of a snapshot's packet read back field by field, and the inference packet reader refuses it |
| MockAccessibility.SnapshotPacketStands | backends/mock/mock_backend.cpp:1359-1391 | every header and record field of a snapshot's packet stands at its byte offset |
| MockAccessibility.Provider.Cancel | backends/mock/mock_backend.cpp:1395-1414 | exactly the pending tickets can be cancelled |
| MockAccessibility.Provider.ReleaseSnapshot | backends/mock/mock_backend.cpp:1416-1431 | a snapshot and its ticket are erased together |
| MockAccessibility.Provider.Synchronize | backends/mock/mock_backend.cpp:1433-1451 | TIMEOUT exactly when something is pending and there is no time; otherwise every pending ticket ends and nothing else changes |
| OverlayScenes.KernelExpands | backends/d3d12/shaders/overlay.hlsl:48-84 | the static kernel's threads, in whatever order they run and whatever lies behind the packet in the buffers, write what expanding the targets one after the other gives |
| OverlayScenes.SceneDraws | backends/d3d12/shaders/overlay.hlsl:48-101 | the expansion of a target with 16-bit edges: the four strips cover exactly the points of its rectangle within a stroke of a side, the label stands at its place in its size, all carry the target's number and style, and the active instance, last, covers the active target's rectangle |
| OverlayRing.FilledPromises | backends/d3d12/overlay_renderer.cpp:666-676 | skipping upload and expansion is sound for a slot whose buffers hold its packet, and for an unused slot whenever the epochs are not both zero or the packet is empty: the buffers hold the packet either way, and a skipped expansion is already there or queued |
| OverlayRing.RunSettles | backends/d3d12/overlay_renderer.cpp:697-705 | when a submission's GPU work runs, its slot holds exactly what expanding the packet afresh gives, whatever older packets left in the buffers |
| OverlayRing.SubmittedKeeps | backends/d3d12/overlay_renderer.cpp:646-784 | submitting any fitting frame, zero epochs included, keeps the ring's invariant |
| OverlayRing.AdvancedKeeps | backends/d3d12/overlay_renderer.cpp:201-205 | so does the GPU finishing a job at any time |
| OverlayRing.SlotShowsExactly | backends/d3d12/overlay_renderer.cpp:666-705 | in every reachable ring a slot not in flight shows its last frame as if expanded afresh, if and only if some frame with nonzero epochs has come to the slot or the packet has no targets |
| OverlayRing.WrongFromTheFirst | backends/d3d12/overlay_renderer.cpp:666-667 | a slot goes wrong exactly with its first frame: zero epochs and something to show; from the first nonzero epochs on it is right |
| OverlayRing.ZeroEpochsSkipTheFirstFrame | backends/d3d12/overlay_renderer.cpp:666-667 | such a slot is reached: with both epochs zero the first frame of a fresh ring is not shown |
| OverlayRing.BusyMeansAllBusy | backends/d3d12/overlay_renderer.cpp:646-665 | the three-slot scan is round robin: if the slot it starts at is in flight, all three are |
| OverlayRing.StaleExactly | backends/d3d12/overlay_renderer.cpp:788-801 | an issued handle is stale exactly when its slot has been used again, which is from the third later submission on |
| OverlayRing.MatchingNamesLastFrame | backends/d3d12/overlay_renderer.cpp:788-801 | any handle that matches names the last frame of its slot |
| OverlayRenderer.Renderer.FreeSlot | backends/d3d12/overlay_renderer.cpp:646-665 | the scan finds the next slot or, exactly when that is in flight, none |
| OverlayRenderer.Renderer.Submit | backends/d3d12/overlay_renderer.cpp:618-786 | exact status; success fills the next slot, slots in flight are untouched |
| OverlayRenderer.Renderer.Poll | backends/d3d12/overlay_renderer.cpp:788-801 | status and completion, and for issued handles staleness by count of later submissions |
| OverlayRenderer.Renderer.Wait | backends/d3d12/overlay_renderer.cpp:803-808 | status for any handle; OK exactly when the slot's fence was reached in time |
| OverlayRenderer.Renderer.CopyInstances | backends/d3d12/overlay_renderer.cpp:810-862 | exact status for any handle; what is copied is the fresh expansion of the frame the handle was given out for, exactly if packets are uploaded into its slot or it has no targets |
| JsonStrings.AppendUtf8 | tools/mcp_server.cpp:102-125 | accepts exactly the values with a form that fits, appends it and touches nothing before |
| JsonStrings.DecodeString | tools/mcp_server.cpp:134-203 | text is accepted exactly when it is well formed and what it stands for fits; the output is what it stands for |
| JsonStrings.ReadHex4 | tools/mcp_server.cpp:151-156 | four hexadecimal digits are read in either case, anything else is refused |
| JsonStrings.CodeBytesAreUtf8Exactly | tools/mcp_server.cpp:102-125 | append_utf8 writes the UTF-8 form exactly for scalar values; for a surrogate it writes bytes that begin no UTF-8 text |
| JsonStrings.EscapesDecodeToUtf8 | tools/mcp_server.cpp:148-173 | the escaped UTF-16 form of any scalar values but U+0000, each hexadecimal digit in either case, decodes to exactly their UTF-8 form |
| JsonEscapes.ShortEscapesDecode | tools/mcp_server.cpp:174-194 | each of the eight short escapes of RFC 8259, wherever it stands, is decoded like the `\u` escape of the character that the document names |
| JsonEscapes.OtherEscapesAreRefused | tools/mcp_server.cpp:174-197 | any other letter after a backslash is refused |
| JsonEscapes.WriterStandsFor | tools/mcp_server.cpp:213-228 | what the writer puts for a byte stands for it by the document's table: itself, its short escape, or its `\u00` escape in lower-case digits |
| JsonEscapes.HexadecimalExactly | tools/mcp_server.cpp:126-132 | a byte is a digit of value v exactly if it is the digit for v in either case |
| JsonEscapes.ClefDecodes | tools/mcp_server.cpp:158-173 | the document's example of a surrogate pair decodes to the UTF-8 form of U+1D11E |
| JsonStrings.WellFormedExactly | tools/mcp_server.cpp:134-203 | accepted well-formed UTF-8 input gives well-formed output if and only if no escape in it is a lone low surrogate |
| JsonStrings.LoneLowIsAccepted | tools/mcp_server.cpp:110-120 | the escape of any low surrogate alone is accepted, and its output is not UTF-8 |
| JsonStrings.DecodeUndoesWrite | tools/mcp_server.cpp:134-234 | decoding undoes writing for every zero-free byte string, and the written text has no bare quote |
| JsonStrings.DecodeUndoesWriteExactly | tools/mcp_server.cpp:134-234 | for every byte string decoding what was written gives the string back, if and only if it has no zero byte anywhere; with one, the text is refused |
| JsonStrings.ZeroByteIsRejected | tools/mcp_server.cpp:102-104 | text that begins with the escape of a zero byte is refused, whatever follows |
| JsonStrings.PutEscape | tools/mcp_server.cpp:208-231 | after the flush test the append cannot fail, for any capacity of at least 6 |
| JsonStrings.WriteJsonString | tools/mcp_server.cpp:205-234 | the chunked writer emits exactly the unchunked escape in quotes; if the stream fails, a front part of it |
| JsonStrings.Chunk.Append | src/core/stack_string_builder.hpp:15-27 | as much as fits is kept; failure and the truncation flag exactly when not all fits |

## Left out

- The handle table is a value here (`HandleTables.Table`) that the providers' methods reassign, not storage updated in place; object lifetimes and destruction order in `src/core/handle_table.hpp` are not modelled.
- `backends/d3d12/directml_provider.cpp` is a state machine over single shared accesses instead of a class with methods, because its two threads interleave inside every call. Filling or clearing the ticket's plain fields is one step; `WorkerOwnsItsSubmission` is why that loses nothing. Steps are sequentially consistent: memory orders weaker than that are not modelled.
- `poll`, `wait` and `collect` read the ticket's plain result and output size (lines 817, 835 and 856 of that file) while the worker may be writing them. The reads of `poll` and `wait` are a step, `Report`, and `ReportsAreFinal` says what they find after a final state; what they find after a pending one is not promised. The early read in `collect`, which it uses only once the state has been found final, has no step of its own.
- In the hand-off, failures of SetEvent and WaitForSingleObject, the GPU work of a ticket (one step with an arbitrary outcome), profiling counters, closing the provider and its destructor.
- The context and model handle generations of the DirectML provider follow the ticket generation's rule and are not carried in its state.
- CpuBackend.Backend.Submit: requires that a scope inside the frame starts inside the frame's buffer, which `submit` does not check itself; `Frames.ScopeReadsInsideExactly` shows that this is exactly what keeps reads inside, and `valid_host_frame` in `src/core/frame_validation.hpp` establishes it at the runtime's import.
- Frame bytes are sampled by value: a caller that changes a host buffer between submit and poll is not modelled. A coordinate shifted by its scope's origin is an unbounded integer until it is written into a packet: the signed overflow beyond 2^31 - 1 is not modelled.
- OverlayRenderer.Renderer.Submit: requires the publishing contract of `docs/architecture/overlay.md`: packet bytes depend on the epochs alone.
- OverlayRenderer.Renderer.CopyInstances: the wait for its own copy is taken to succeed; device removal, failed Reset, Close or Signal and the 64-bit wrap of sequence and fence values are left out.
- In the overlay renderer also: the refusal of an uninitialized renderer and of calls from another thread, drawing, barriers, descriptors, animation time, the glyph atlas, byte-level packet validation and statistics.
- The mock provider's models keep only their context count: the stable id and device they are created with are checked and never read again.
- MockAccessibility.PendingLeavesRoom: speaks of a retired slot because the table retires a slot after 2^32 - 1 reuses; by `PollFailsExactly` no ticket fails before that.
- The mock provider's capture streams, input tickets and overlays, which are simpler instances of the same counting machine.
- JSON tokenizing and routing around the string codec: the decoder is given the text between the quotes; the terminating zero of `StackStringBuilder` is not stored.
- C++ bit operations on disjoint bit ranges are written as sums and divisions.
- Structure-size and API-version prefixes, null output pointers, device enumeration and memory statistics of all providers.
