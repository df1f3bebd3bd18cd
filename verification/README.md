# Proofs about the fractal studio's stateful core

This project models seven pieces of the fractal studio — state machines, protocols and
arithmetic — and proves what they keep. `dafny verify dfyconfig.toml` (Dafny 4.11) verifies it.

| area | files |
|---|---|
| interactive native-field sessions of the map explorer: worker and memory caps, preemption flags, tile publication, pinned readers, acknowledgement, expiry | `FieldSessions`, `FieldInvariants`, `FieldRuns`, `FieldEffects`, `FieldScans`, `FieldService`, `ViewKeys` |
| preview snapshots: sampling the native field and filling from the nearest published sample | `SnapshotFill`, `Grid` |
| fixed-point escape iteration with the Direct, Component and L1 gates | `EscapeGates` |
| durable compute runs: the gateway's reservations and retries, the node's idempotency locks, previews and artifacts | `IdempotentNode`, `NodeService`, `DurableRuns`, `DurableEffects`, `GatewayService`, `StaleStatus`, `PreviewSlots`, `Artifacts` |
| zoom-video planning: cutting the strip and dealing out the frames | `VideoPlan` |
| voxel surface export of transition volumes | `VoxelSurface` |
| the profiled cost model and its benchmark cache | `CostModel` |

`Arithmetic` and `Ordering` hold shared facts on quotients, sums and sorted listings, `Wrappers` the optional
and fallible results.

Concurrent code is modelled as a state machine whose events are single critical sections,
single database transactions or single atomic accesses, in any interleaving. Classes
(`FieldService.Registry`, `NodeService.ComputeNode`, `GatewayService.Gateway`,
`PreviewSlots.PreviewSlots`, `Artifacts.ArtifactTable`, `CostModel.BenchmarkCache`) hold the
fields the program updates; the first three prove each method to take steps of the state
machine, so the theorems about runs apply to any sequence of calls. `FieldEffects` and
`DurableEffects` state what single steps do in terms of the record fields, sizes and times
themselves, without the definitions the steps are built from.

## What the proofs found

- **Fast gates.** Every mask of the fixed-point field renderer reports a magnitude, so the loop always
  decides as Direct does and the Component and L1 gates act only on the start point of a Julia render.
  Parameter-plane renders are unaffected (`EscapeGates.UncheckedUntouched`). A Q3.60 Julia escape render
  agrees with Direct only when the squared bailout is exactly 4.0 (or, for bailouts within 2^-28 of 0.0
  or 2.0, in a narrow window); `L1JuliaExact` is the exact condition and `L1JuliaDiffers` names the
  starting pixels that are misjudged. Component has the corresponding condition, and a request may
  state a radius and a squared radius that violate it (`ComponentWithLooseSquare`).
- **Budget trim.** Trimming delivered fields never removes anything: an acknowledged field without
  readers has already given back its reservation (`FieldInvariants.TrimIdle`).
- **Terminal states.** A status report, or a create reply that comes late, overwrites terminal states.
  Reviving a finished run on a full node is the only way the node can be over-booked
  (`DurableRuns.OverbooksExactly`); `StaleStatus` is a run in which it happens.
- **Video planning.** With fewer frames than strip segments the deepest strips are never planned, so
  the last planned segment is not the one that ends at the full depth
  (`VideoPlan.DeepestPlannedIff`, and `ShortVideoStopsEarly` for an example). The repair of the frame count after planning, the repair of an
  empty depth range and the 0.25 floor of the fallback margin are never needed.
- **Voxel depth.** A comment promises depth byte 255 at the surface; the formula ends at 254.
- **Cost model.** With a single calibration point above 0.001 ms the prediction for size zero exceeds
  that for every positive size below the measured one (`CostModel.SinglePoint`, `MonotoneIff`). Both
  callers clamp each factor of the size to at least 1 (engine_select.cpp:94-98,
  tile_scheduler.cpp:113-116), so only a direct call of the exported function meets it.

## Model

| member | source | states |
|---|---|---|
| SnapshotFill.FillFromNearest | backend/src/api/routes_map.cpp:1855-1874 | after the search every preview cell is owned by a published sample, and no published sample is closer to it: distances are counted in rows plus columns of the grid |
| SnapshotFill.AllNearest | backend/src/api/routes_map.cpp:1860-1874 | an exhausted queue leaves no cell without a nearest owner |
| SnapshotFill.Frontier | backend/src/api/routes_map.cpp:1860-1874 | before the head is expanded, a path from any unowned cell to a closer seed leaves the owned region through the unexpanded part of the queue |
| SnapshotFill.NoneLeft | backend/src/api/routes_map.cpp:1860-1874 | with the queue exhausted no cell can lack an owner while a seed exists |
| SnapshotFill.NextLayer | backend/src/api/routes_map.cpp:1865-1873 | a cell claimed from the head lies exactly one layer deeper, at its true distance to its owner, and no seed is closer |
| SnapshotFill.Visit | backend/src/api/routes_map.cpp:1869-1872 | claiming an unowned neighbour for the head's owner keeps layers, owners and queue correct |
| SnapshotFill.Expand | backend/src/api/routes_map.cpp:1860-1874 | one iteration of the search claims exactly the open neighbours of the head in place and moves on |
| SnapshotFill.TakeSnapshot | backend/src/api/routes_map.cpp:1774-1850 | rejected exactly when a requested or native side is below 16; a preview exactly when a tile and a centre pixel are published; every sample shown is that of a published pixel, a cell whose centre pixel is published shows that very pixel, every other one a nearest such cell, and a fully published field always has a preview |
| SnapshotFill.SampleOwners | backend/src/api/routes_map.cpp:1811-1827 | a preview cell owns itself exactly when the native pixel under its centre is published, and no cell owns another |
| SnapshotFill.SourceAxisStrict | backend/src/api/routes_map.cpp:1813-1817 | the clamp of the sampling coordinate never acts and neighbouring preview cells sample different pixels |
| SnapshotFill.CentrePixel | backend/src/api/routes_map.cpp:1813-1818 | the pixel under a preview cell's centre in numbers: row floor((2y+1)H/2h), column floor((2x+1)W/2w) |
| SnapshotFill.CellShows | backend/src/api/routes_map.cpp:1820-1822 | each shown sample comes from a published pixel, and from the cell's own centre pixel when that is published |
| EscapeGates.Iterate | backend/src/compute/escape_time.hpp:153-298 | the loop with cached and skipped squares returns what the reference run of its gate returns, every result field included |
| EscapeGates.RunAgrees | backend/src/compute/escape_time.hpp:245-291 | a gate that is exact on points gives whole runs identical to Direct for every step function, start, mask and limit |
| EscapeGates.RunsAgreeIffExact | backend/src/compute/escape_time.hpp:153-298 | runs agree with Direct for all inputs if and only if the gate decides every point as the squared magnitude does |
| EscapeGates.L1RunsExact | backend/src/compute/escape_time.hpp:256-280 | Q3.60 runs under L1 agree with Direct exactly when the squared bailout is 4.0 (bailout at least 2.0) or lies in the narrow window of a smaller bailout |
| EscapeGates.L1Exact | backend/src/compute/escape_time.hpp:256-280 | the same condition for the decision on single points, both directions |
| EscapeGates.L1ExactAtTwo | backend/src/compute/fx64_raw.hpp:17-18 | the constants 2.0 and floor(2 sqrt 2) in Q3.60 decide bailout 2 exactly although both squares are rounded down |
| EscapeGates.L1WrongElsewhere | backend/src/compute/escape_time.hpp:191-223 | with bailout at least 2.0 and any other squared bailout the L1 gate misjudges 2.0 or one named point beyond its threshold |
| EscapeGates.RendererAgreesIff | backend/src/compute/map_kernel.cpp:1299-1317 | for all four masks of the field renderer: results equal Direct's for every step function exactly when the start is not checked, is judged alike, or the misjudgement is hidden by an extreme already reached |
| EscapeGates.UncheckedUntouched | backend/src/compute/map_kernel.cpp:1208-1222 | parameter-plane renders, which do not check the start, are untouched by the gate whatever the bailouts |
| EscapeGates.JuliaAgreesIff | backend/src/compute/map_kernel.cpp:1208-1222 | a Julia escape render agrees with Direct at all start points exactly when its gate is exact |
| EscapeGates.L1JuliaExact | backend/src/compute/map_kernel.cpp:1208-1222 | for Q3.60 that is: squared bailout 4.0 with bailout at least 2.0, or the narrow window of a smaller bailout |
| EscapeGates.ComponentJuliaExact | backend/src/compute/map_kernel.cpp:1208-1222 | for Q4.59 that is: the first component beyond the bailout squares beyond the squared bailout, or none can be beyond |
| EscapeGates.L1JuliaDiffers | backend/src/compute/map_kernel.cpp:1208-1222 | for any other squared bailout a Julia escape render and Direct differ at a named start point |
| EscapeGates.MisjudgedPixels | backend/src/compute/fx64_raw.hpp:221-251 | the named start points are pixels of concrete viewports, 512 or 513 pixels a side |
| EscapeGates.L1NeverBelowTwo | backend/src/compute/escape_time.hpp:191-223 | bailouts below 2.0 and more than 2^-28 away from 0.0 and 2.0 are never decided exactly by L1 |
| EscapeGates.L1Outside | backend/src/compute/fx64_raw.hpp:17-18 | beyond the L1 threshold the magnitude exceeds 4.0 in spite of both floors |
| EscapeGates.SharpPoint | backend/src/compute/fx64_raw.hpp:17-18 | at one concrete point just beyond the threshold the magnitude exceeds 4.0 by a single unit, so the constant cannot be lowered freely |
| EscapeGates.ComponentRunsExact | backend/src/compute/escape_time.hpp:256-280 | runs under Component agree with Direct exactly when the square of the first component beyond the bailout exceeds the squared bailout, or no component can be beyond |
| EscapeGates.ComponentSafe | backend/src/compute/escape_time.hpp:191-223 | bailout2 * 2^F <= bailout^2, 2 * bailout + 1 >= 2^F and bailout2 below the maximum suffice |
| EscapeGates.ComponentWithLooseSquare | backend/src/compute/map_kernel.cpp:1208-1222 | radius 1.0 with an independent squared radius 9.0: a Julia escape render under Component differs from Direct at a named start point |
| EscapeGates.DirectFirstEscape | backend/src/compute/escape_time.hpp:245-285 | Direct stops at the first point beyond the squared bailout, k points after the first stepped one: under their mask bits iter is k, escaped is set, norm is that point's squared magnitude, and least and greatest are attained and bounding among all points compared, a checked start included |
| EscapeGates.DirectNeverEscapes | backend/src/compute/escape_time.hpp:293-297 | without an escaping point iter is the limit, escaped is clear, there is no norm, and least and greatest are the extremes of all points compared or the initial values when there are none |
| EscapeGates.FirstEscape | backend/src/compute/escape_time.hpp:140-146 | the same for every gate: the run stops at the first point its gate fires on, with each result field under its own mask bit |
| EscapeGates.NeverEscapes | backend/src/compute/escape_time.hpp:293-297 | the same for every gate when no point fires |
| EscapeGates.StartEscapes | backend/src/compute/escape_time.hpp:232-235 | a checked start stopped by its own gate is iteration 0, with its own magnitude as norm and as both extremes |
| EscapeGates.MagnitudeInNumbers | backend/src/compute/escape_time.hpp:207-209 | the magnitude is floor(x*x / 2^F) + floor(y*y / 2^F), capped at 2^64 - 1 |
| EscapeGates.ExtremesAreExtreme | backend/src/compute/escape_time.hpp:208-209 | the reported least and greatest magnitudes are attained and bound all others |
| EscapeGates.PrefixSquaresExact | backend/src/compute/escape_time.hpp:125-130 | with bailout2 below 2^63 every square handed to the next step along an unescaped prefix, a checked start included, is the exact shifted product: no saturation, no clamping cast |
| EscapeGates.CheckedStartExact | backend/src/compute/escape_time.hpp:185-243 | the same for a start that its own gate let pass, L1 with its constants included |
| EscapeGates.AddU64Sat | backend/src/compute/escape_time.hpp:120-123 | wrapping addition with overflow detection is addition capped at the maximum |
| EscapeGates.AbsU64 | backend/src/compute/fx64_raw.hpp:45-48 | the two's complement magnitude is exact even for the most negative value |
| EscapeGates.PixelOffsetExact | backend/src/compute/fx64_raw.hpp:221-251 | splitting off the quotient first loses nothing: the offset is the full product divided once, for either sign of the span |
| EscapeGates.OffsetFitsIff | backend/src/compute/fx64_raw.hpp:224-229 | no intermediate of the offset leaves 64 bits, for any span and pixel, exactly up to 1518500250 pixels; the routes allow 8192 |
| EscapeGates.CoordinatesFit | backend/src/compute/fx64_raw.hpp:221-251 | with both edges of the viewport in range every coordinate is |
| EscapeGates.PixelCoordinatesOrdered | backend/src/compute/fx64_raw.hpp:221-251 | coordinates run left to right and top to bottom and stay inside the span around the centre |
| ViewKeys.ViewKeyInjective | backend/src/api/routes_map.cpp:1110-1112 | the length-prefixed view key determines preempt key and sequence, whatever characters the key holds |
| ViewKeys.ViewKeySample | backend/src/api/routes_map.cpp:1110-1112 | the view key of key tab and sequence 42 is 3:tab:42 |
| FieldInvariants.StepKeeps | backend/src/api/routes_map.cpp:472-1112 | every critical section of handlers, workers, encoders and the reaper keeps the invariant on memory, workers, views, flags and readers |
| FieldInvariants.NothingTrimmable | backend/src/api/routes_map.cpp:678-687 | in every reachable state no session qualifies for trimming: an acknowledged field without readers is already freed |
| FieldInvariants.TrimIdle | backend/src/api/routes_map.cpp:667-699 | hence the budget trim never erases anything |
| FieldInvariants.WholeFrame | backend/src/api/routes_map.cpp:862-873 | the final whole-frame publication leaves every cell published |
| FieldInvariants.PaintCount | backend/src/api/routes_map.cpp:836-845 | painting overlapping rectangles keeps completedPixels equal to the number of published cells |
| FieldEffects.AdmissionCreates | backend/src/api/routes_map.cpp:1707-1722 | an admitted session holds the request's own id, fingerprint, size and flag, 9 bytes reserved per pixel and no published pixel; nothing else changes |
| FieldEffects.AdmissionNeedsRoom | backend/src/api/routes_map.cpp:1677-1680 | a session is admitted only with at most one live worker, at most 4096 * 4096 pixels, and reservations within 536870912 bytes |
| FieldEffects.ReservedIsTotal | backend/src/api/routes_map.cpp:651-661 | the reserved total is zero for an empty registry and falls by a session's own reservation when it leaves |
| FieldEffects.RegistrationEffect | backend/src/api/routes_map.cpp:69-92 | a registration sets at most the flag of its own key's predecessor, keeps live entries of other keys, which it sets when current; its own flag is set for an overlong key, a negative sequence or a live newer predecessor, and only then or for a newer entry not yet dropped |
| FieldEffects.OnesIsCardinality | backend/src/api/routes_map.cpp:836-845 | the publication count is the number of published pixels |
| FieldEffects.TilePublished | backend/src/api/routes_map.cpp:824-846 | a tile inside the frame of a running session with full-size buffers becomes published pixel for pixel and is counted; any other tile changes nothing |
| FieldEffects.IdleAreAsked | backend/src/api/routes_map.cpp:599-607 | a prune asks exactly the running sessions unattended for more than 15000 ms to stop |
| FieldEffects.OtherFlagsKept | backend/src/api/routes_map.cpp:599-607 | a prune leaves every flag alone that belongs to no session |
| FieldEffects.PruneRemoves | backend/src/api/routes_map.cpp:609-637 | a prune removes every unread terminal session finished more than 30000 ms ago, of the unneeded others only the oldest beyond three, and nothing else; the view map loses exactly their entries |
| FieldEffects.RoomIsMade | backend/src/api/routes_map.cpp:723-740 | only when two active views are still wanted is one asked to stop, and it is the one unattended longer |
| FieldEffects.OutcomeRead | backend/src/api/routes_map.cpp:875-883 | a normal worker ends completed exactly when its flag is clear at the final check, a failed one cancelled exactly when its flag is set or the exception says so |
| FieldEffects.OutcomeRecorded | backend/src/api/routes_map.cpp:849-865 | the verdict becomes the outcome; every field but a completed one is freed at once |
| FieldEffects.AcknowledgementEffect | backend/src/api/routes_map.cpp:1994-2003 | an acknowledgement of a completed result marks it delivered, and frees it unless it is being read; of any other session it changes nothing |
| FieldEffects.PinnedExactly | backend/src/api/routes_map.cpp:1907-1932 | a reader is let in exactly to a registered, completed, undelivered field with full-size buffers |
| FieldEffects.ReaderLeaves | backend/src/api/routes_map.cpp:806-822 | a leaving reader is counted out, and the last one after an acknowledgement frees the field |
| FieldEffects.GateEffect | backend/src/api/routes_map.cpp:1945-1959 | entering the free gate closes it, leaving opens it, and no session changes |
| FieldEffects.AdmittedIdentity | backend/src/api/routes_map.cpp:1707-1722 | over any run a session keeps the request id, fingerprint, size, view key and flag it was admitted with |
| FieldRuns.RunInv | backend/src/api/routes_map.cpp:1640-2017 | the invariant holds in every state of every run |
| FieldRuns.CapacityHolds | backend/src/api/routes_map.cpp:1675-1697 | in every reachable state at most 2 sessions run and at most 512 MiB are reserved; everything running or being read is registered with its full reservation |
| FieldRuns.ReservationTruthful | backend/src/api/routes_map.cpp:801-822 | a session reserves its full size exactly while its raw field may still be needed |
| FieldRuns.StaleScanIsSafe | backend/src/api/routes_map.cpp:640-661 | the admission scans lock one session at a time; totals made of stale values are still upper bounds at the decision |
| FieldScans.StalePruneIsSafe | backend/src/api/routes_map.cpp:586-638 | a prune that read the sessions one by one removes only sessions that are still unread and expired or disposable, the oldest first, and spares every other |
| FieldScans.ReadStands | backend/src/api/routes_map.cpp:597-617 | what was expired or disposable when read still is when the scan ends |
| FieldScans.ErasableStays | backend/src/api/routes_map.cpp:637 | erasing one session never makes another one needed |
| FieldScans.PruneOnReads | backend/src/api/routes_map.cpp:597-637 | the prune loop over sessions read one by one: the idle ones to stop, and a choice of removals that StalePruneIsSafe covers |
| FieldScans.StaleMakeRoomLeavesOne | backend/src/api/routes_map.cpp:705-741 | making room on stale reads leaves at most one uncancelled active view |
| FieldScans.MakeRoomOnReads | backend/src/api/routes_map.cpp:710-740 | the make-room loop over sessions read one by one: as many as needed, the longest-unattended first, and at most one active view is left unasked |
| FieldRuns.MakeRoomLeavesOne | backend/src/api/routes_map.cpp:705-741 | making room leaves at most one uncancelled active view and cancels none beyond that |
| FieldRuns.PublicationMonotone | backend/src/api/routes_map.cpp:824-846 | the publication count is always truthful and published cells stay published while the field is held |
| FieldRuns.CompletedIsWhole | backend/src/api/routes_map.cpp:862-883 | a completed session has published every pixel, however cancellation interleaved with its worker |
| FieldRuns.RunProgress | backend/src/api/routes_map.cpp:472-1112 | outcomes and acknowledgements are final over whole runs |
| FieldRuns.ReadersSeeWholeField | backend/src/api/routes_map.cpp:1898-1980 | an encoder's session is registered, completed, full-size and fully published as long as it reads; its reader count is positive |
| FieldRuns.ReadersCounted | backend/src/api/routes_map.cpp:1932-1976 | a session's reader count is the number of handlers reading its field, and only completed sessions have any |
| FieldRuns.FreedWhenDone | backend/src/api/routes_map.cpp:801-822 | a completed field is freed exactly when it was acknowledged and nobody reads it |
| FieldRuns.NoReaderAfterAck | backend/src/api/routes_map.cpp:1923-1932 | after an acknowledgement no further reader starts |
| FieldRuns.OneEncoding | backend/src/api/routes_map.cpp:1945-1959 | two results are never encoded at once |
| FieldRuns.UnacknowledgedRetained | backend/src/api/routes_map.cpp:586-638 | an unacknowledged completed result stays registered until its lifetime is over, over any run |
| FieldRuns.PruneBounds | backend/src/api/routes_map.cpp:586-638 | a prune leaves nothing expired and at most three disposable sessions, the most recently finished, and spares all others |
| FieldRuns.MapsInverse | backend/src/api/routes_map.cpp:569-578 | the session map and the view map are mutual inverses in every reachable state |
| FieldRuns.LookupFindsOwnView | backend/src/api/routes_map.cpp:1651-1664 | looking up the key of a preempt key and sequence finds exactly the session registered for them, in every reachable state |
| FieldRuns.OneLiveFlag | backend/src/api/routes_map.cpp:69-92 | per preempt key at most one flag is live, and it is the latest accepted one |
| FieldRuns.AcceptedIsLatest | backend/src/api/routes_map.cpp:81-90 | a current sequence replaces its predecessor and cancels it, a stale one is born cancelled |
| FieldRuns.SequenceMonotone | backend/src/api/routes_map.cpp:81-86 | a step never lowers the sequence of a key whose entry lives |
| FieldRuns.RunSequenceMonotone | backend/src/api/routes_map.cpp:62-92 | the same over whole runs with pruning of expired entries |
| FieldRuns.ActiveViewsDistinct | backend/src/api/routes_map.cpp:1667-1674 | two active sessions of one browser key are never both uncancelled |
| FieldRuns.FlagsOneWay | backend/src/api/routes_map.cpp:69-92 | cancel flags only go from clear to set |
| FieldService.Registry.constructor | backend/src/api/routes_map.cpp:529-531 | the empty registry satisfies the invariant |
| FieldService.Registry.PrunePreemptEntries | backend/src/api/routes_map.cpp:62-67 | drops exactly the entries whose flag nobody owns |
| FieldService.Registry.RegisterRequest | backend/src/api/routes_map.cpp:69-92 | registers the request's flag as the event RegisterFlag does, pruning a full table first |
| FieldService.Registry.Erase | backend/src/api/routes_map.cpp:569-578 | removes the session, and its view entry only if it points to it |
| FieldService.Registry.PruneSessions | backend/src/api/routes_map.cpp:586-638 | performs exactly the Prune event: idle workers asked to stop, expired and surplus disposable sessions erased, oldest first |
| FieldService.Registry.CountRunning | backend/src/api/routes_map.cpp:640-649 | counts the live workers, cancelled ones included |
| FieldService.Registry.SumReserved | backend/src/api/routes_map.cpp:651-661 | adds up the reservations of the registry |
| FieldService.Registry.TrimForBudget | backend/src/api/routes_map.cpp:667-699 | performs the Trim event for the requested bytes |
| FieldService.Registry.MakeRoomForOne | backend/src/api/routes_map.cpp:705-741 | performs the MakeRoom event: the longest-unattended active views are cancelled, as few as needed |
| FieldService.Registry.AdmitNew | backend/src/api/routes_map.cpp:1666-1724 | registers, makes room, trims, and admits exactly when a worker slot and the memory are free; the new session holds the request's own id, fingerprint, size and view key, and otherwise no session is added |
| FieldService.Registry.Start | backend/src/api/routes_map.cpp:1640-1725 | the whole locked section: rejected exactly for empty ids, a key over 128 bytes or an unacceptable size; the reply follows from the pruned registry; after Started(id) session id is running, registered and holds the request's own id, fingerprint, size and view key, and otherwise no session is added |
| FieldService.RepeatedStart | backend/src/api/routes_map.cpp:1651-1663 | an identical start on a registered view returns the same session and starts no second worker |
| FieldService.StartedAnswersAgain | backend/src/api/routes_map.cpp:1651-1663 | over any run: while the session a start created is registered, repeating the start returns that session and starts nothing, and an acknowledgement with its request id is accepted |
| FieldService.RepliesMean | backend/src/api/routes_map.cpp:1651-1697 | an existing session is returned exactly when both id and fingerprint match; busy means two live workers or too little memory, and says which; superseded means a cancelled flag |
| FieldService.Registry.PaintRect | backend/src/api/routes_map.cpp:836-844 | the cell loops mark exactly the rectangle and count exactly the newly published cells |
| FieldService.Registry.PublishTile | backend/src/api/routes_map.cpp:824-846 | performs the Publish event, whose effect is FieldEffects.TilePublished |
| FieldService.Registry.FinalizeSession | backend/src/api/routes_map.cpp:849-871 | records the outcome and frees the buffers of anything not completed |
| FieldService.Registry.PinResult | backend/src/api/routes_map.cpp:1898-1940 | pins the raw field exactly when the session is registered, completed, unacknowledged and full-size |
| FieldService.Registry.TryEncode | backend/src/api/routes_map.cpp:1945-1954 | enters the transport gate when it is free, and otherwise lets go of the field |
| FieldService.Registry.EndEncode | backend/src/api/routes_map.cpp:1965-1976 | one reader less; the last one after an acknowledgement frees the field |
| FieldService.Registry.LeaveGateFor | backend/src/api/routes_map.cpp:1955-1959 | the transport gate opens again |
| FieldService.Registry.AcknowledgeResult | backend/src/api/routes_map.cpp:1988-2005 | marks the result delivered and frees the field when nobody reads it |
| IdempotentNode.StepKeeps | backend/src/api/routes_compute_v1.cpp:695-721 | every handler step, failure and crash keeps the lock table, cache and run bookkeeping consistent |
| IdempotentNode.MutualExclusion | backend/src/api/routes_compute_v1.cpp:98-107 | two handlers of one key are never inside the critical section together, although mutexes are dropped and recreated |
| IdempotentNode.KeysDoNotShare | backend/src/api/routes_compute_v1.cpp:98-107 | handlers of different keys never share a mutex |
| IdempotentNode.CacheStable | backend/src/core/db.cpp:459-475 | a recorded response is never replaced although the statement is INSERT OR REPLACE |
| IdempotentNode.AcceptedRepliesAgree | backend/src/api/routes_compute_v1.cpp:702-720 | all accepted requests of one key, at any times and across crashes, are told the same run |
| IdempotentNode.ReplyDecided | backend/src/api/routes_compute_v1.cpp:708-716 | the reply follows from the recorded hash: same hash (or none stored) the recorded run, another hash a conflict |
| IdempotentNode.RecordedAnswers | backend/src/api/routes_compute_v1.cpp:708-720 | over any run and across crashes: after a request was recorded, a later look-up of its key gets its run when the hashes agree or none was stored, and a conflict otherwise |
| IdempotentNode.RecordEffect | backend/src/api/routes_compute_v1.cpp:718-720 | a recorded response holds the hash of its own request and the run made for it |
| IdempotentNode.CreationEffect | backend/src/api/routes_compute_v1.cpp:718-719 | a new run has the next number and belongs to the key of its handler |
| IdempotentNode.UnrecordedMisses | backend/src/api/routes_compute_v1.cpp:708 | a look-up misses exactly when the key was never recorded |
| IdempotentNode.OneRunPerKey | backend/src/api/routes_compute_v1.cpp:702-719 | a key owns at most one run not lost by a failed recording or a crash |
| NodeService.ComputeNode.IdempotencyLock | backend/src/api/routes_compute_v1.cpp:98-107 | with strong counts: the weak reference is upgraded exactly while somebody refers to the mutex, else a new mutex takes its place |
| NodeService.ComputeNode.Receive | backend/src/api/routes_compute_v1.cpp:695-700 | a request arrives; nobody's lock or reference changes |
| NodeService.ComputeNode.LockMutex | backend/src/api/routes_compute_v1.cpp:702-703 | the mutex is acquired exactly when no handler is inside |
| NodeService.ComputeNode.LookUpResponse | backend/src/api/routes_compute_v1.cpp:704-716 | performs the Find step: miss, conflict or recorded response; or its failure while the mutex is held |
| NodeService.ComputeNode.CreateRun | backend/src/api/routes_compute_v1.cpp:717-718 | performs the Create step, or its failure |
| NodeService.ComputeNode.RecordResponse | backend/src/api/routes_compute_v1.cpp:719 | records the response under the key, or leaves the run unrecorded |
| NodeService.ComputeNode.UnlockMutex | backend/src/api/routes_compute_v1.cpp:703 | leaving frees the mutex for everybody |
| NodeService.ComputeNode.DropReference | backend/src/api/routes_compute_v1.cpp:702 | one strong reference less; counts stay equal to the handlers that hold one |
| DurableRuns.StepKeeps | compute-gateway/app/services.py:461-587 | every gateway transaction, delivery and node step keeps the protocol invariant |
| DurableRuns.RunInv | compute-gateway/app/services.py:461-587 | the invariant holds in every state of every run |
| DurableRuns.NodeRunWrittenOnce | compute-gateway/app/services.py:557-562 | node_run_id is written at most once; key, node and request of a run never change |
| DurableRuns.AcceptedSubmissionsAgree | compute-gateway/app/services.py:381-402 | all accepted submissions of one gateway run, however retried, lost or delayed, name the same node run |
| DurableRuns.RecordedRunAgrees | compute-gateway/app/services.py:552-562 | the recorded node run is the one every accepted reply names |
| DurableRuns.NodeRunsDistinct | compute-gateway/app/services.py:470-478 | one run per idempotency key, and no two gateway runs share a node run |
| DurableRuns.ReservationWithinLimit | compute-gateway/app/services.py:498-520 | each committed reservation leaves active use within the limit for every requested resource of its node |
| DurableRuns.OveruseIsRevival | compute-gateway/app/services.py:577-587 | in every reachable state a node exceeds a limit at most by the number of finished runs that a status write revived |
| DurableRuns.WithinLimits | compute-gateway/app/services.py:461-524 | without revivals both pools of every node stay within their limits in every reachable state |
| DurableRuns.OverbooksExactly | compute-gateway/app/services.py:552-587 | from within a limit, a step exceeds it exactly when the node is full and the step is a status report, or a first create reply, that puts a finished run of the node back into an active state |
| DurableRuns.RevivalLogged | compute-gateway/app/services.py:552-587 | the revivals counted by OveruseIsRevival are exactly these steps |
| DurableEffects.PoolsRequested | compute-gateway/app/services.py:29-37 | every engine but cuda requests a processor slot, every engine but the four processor engines a graphics slot |
| DurableEffects.ActiveIsCardinality | compute-gateway/app/services.py:40-48 | the use of a pool is the number of allocating, queued or executing runs of the node that requested it |
| DurableEffects.RoomInNumbers | compute-gateway/app/services.py:491-492 | a node has room exactly when every requested pool has a slot less in use than its limit |
| DurableEffects.ReservationEffect | compute-gateway/app/services.py:513-523 | a reservation adds one allocating row with the request's own key and hash, on a node with room, for a key no row had |
| DurableEffects.SubmissionEffect | compute-gateway/app/services.py:526-531 | a submission reaches the run's own node with its stored key and request |
| DurableEffects.ReplyEffect | compute-gateway/app/services.py:552-562 | the first accepted reply names the node run and state of its row; later ones change nothing |
| DurableEffects.StatusEffect | compute-gateway/app/services.py:533-587 | rejections, losses and reports write the state of their own row and nothing else |
| DurableEffects.ReservationFound | compute-gateway/app/services.py:468-477 | over any run the row found under a reserved key is the reserved one and holds the hash of the request that reserved it, so the same request is replayed and another refused |
| StaleStatus.StaleStatusOverbooks | compute-gateway/app/services.py:390-405 | a concrete thirteen-step run: of two pollers' reports the earlier one is saved last, and two active runs share a node with one slot |
| GatewayService.CountActive | compute-gateway/app/services.py:645-654 | the counting loop finds the active runs holding each pool of a node |
| GatewayService.LoadIsFullest | compute-gateway/app/services.py:492 | the load of a candidate is the greatest used / limit of the requested pools: no pool exceeds it and one attains it |
| GatewayService.RankedByLoadThenAge | compute-gateway/app/services.py:495-498 | candidates rank by load, then never assigned before assigned and earlier before later, then by key |
| GatewayService.Gateway.Scan | compute-gateway/app/services.py:483-502 | lists exactly the eligible nodes that seemed to have room, by load, last assignment and key |
| GatewayService.Gateway.ReserveOrReplay | compute-gateway/app/services.py:461-524 | replay, conflict, reservation or no capacity; a reservation is the best-ranked candidate that passes the locked recheck, whatever the earlier scan saw, and its row holds the request's own key, hashes and engine |
| GatewayService.Gateway.Send | compute-gateway/app/services.py:526-531 | a request is sent only for a run without node run, with its stored key and request |
| GatewayService.Gateway.RecordReply | compute-gateway/app/services.py:552-562 | performs the Deliver step: only the first reply is recorded |
| GatewayService.Gateway.MarkRejected | compute-gateway/app/services.py:533-546 | performs the Reject step |
| GatewayService.Gateway.MarkLost | compute-gateway/app/services.py:754-764 | performs the Lose step |
| GatewayService.Gateway.SaveReport | compute-gateway/app/services.py:577-587 | performs the SaveStatus step, terminal states included |
| PreviewSlots.PreviewSlots.Choose | compute-gateway/app/services.py:355-360 | the least loaded eligible node with a slot in every requested pool, ties by key |
| PreviewSlots.PreviewSlots.TryAdmit | compute-gateway/app/services.py:354-363 | admitted exactly when an eligible node has room, to all its pools at once; every counter stays the number of held previews, within its limit |
| PreviewSlots.PreviewSlots.Release | compute-gateway/app/services.py:375-379 | gives back exactly what was held; the floor at zero is never reached |
| PreviewSlots.PreviewSlots.LoadIsFullest | compute-gateway/app/services.py:359 | the load compared is the greatest used / limit of the requested pools |
| PreviewSlots.PreviewSlots.RoomInNumbers | compute-gateway/app/services.py:355 | a node has room exactly when every requested pool has a slot less in flight than its limit |
| PreviewSlots.PreviewSlots.BetterByLoadThenKey | compute-gateway/app/services.py:357-360 | the node taken is never fuller than another with room, and the earlier key decides between equals |
| PreviewSlots.HeldIsCardinality | compute-gateway/app/services.py:361-362 | a counter stands for the number of unreleased previews holding that pool of that node |
| Artifacts.ArtifactTable.PersistManifest | compute-gateway/app/services.py:589-634 | fails exactly on an unacceptable entry and then changes nothing; otherwise every entry is published under its external ID with its own media type, size and hash, and no existing row is replaced |
| Artifacts.AcceptableMeans | compute-gateway/app/services.py:589-612 | what is acceptable: a safe file name, one of seven media types, 1 to 524288000 bytes and 64 lower-case hexadecimal digits |
| Artifacts.NodeIdSplits | compute-gateway/app/services.py:602-604 | exactly the identifiers that start with the node run and a colon belong to it |
| Artifacts.RewrittenMeans | compute-gateway/app/services.py:613-633 | an entry is handed out as gateway_run:filename with the matching content path |
| Artifacts.ExternalIdMeans | compute-gateway/app/services.py:602-626 | an external ID maps to exactly node_run_id:filename, with a safe filename |
| Artifacts.ExternalIdInjective | compute-gateway/app/services.py:613 | run and filename can be read back from an external ID |
| Artifacts.ArtifactsDistinct | compute-gateway/app/services.py:602-626 | runs with node runs of their own never share an artifact |
| VideoPlan.ResolveStripPlan | backend/src/api/routes_video.cpp:400-466 | errors exactly as the checks say; otherwise the pieces tile the depth rows, total rows are depth rows plus padding per piece, no piece exceeds the height limit, and the strip is cut exactly when it exceeds the limit |
| VideoPlan.CutStrip | backend/src/api/routes_video.cpp:453-466 | the tiling for any rows and any limit above the padding |
| VideoPlan.SumSegments | backend/src/api/routes_video.cpp:456-460 | the row loop runs once per piece and adds up depth rows plus padding |
| VideoPlan.BuildSegments | backend/src/api/routes_video.cpp:586-656 | kept segments have consecutive indices and rows, contiguous non-empty frame ranges from 0 to the frame count, and there are min(segments, frames) of them; first and last depth of each satisfy depth * frame == d * (frames - 1) for its first and last frame |
| VideoPlan.PlanSegment | backend/src/api/routes_video.cpp:604-654 | one turn of the loop: a strip is placed, takes the frames that reach its end, and is dropped when none is left |
| VideoPlan.FramesEvenlySpaced | backend/src/api/routes_video.cpp:596-601 | for more than one frame the first is at depth 0, the last at the full depth, and neighbours differ by exactly depth / (frames - 1) |
| VideoPlan.FrameInProportion | backend/src/api/routes_video.cpp:596-601 | frame f satisfies d * (frames - 1) == depth * f |
| VideoPlan.FrameInStrip | backend/src/api/routes_video.cpp:631-643 | a segment's frames lie between the ends of its strip up to 1e-12 octaves, in numbers, except a single forced frame |
| VideoPlan.NextFrameBeyond | backend/src/api/routes_video.cpp:634-637 | the first frame after a segment lies at or beyond the end of its strip up to 1e-12 octaves |
| VideoPlan.SegmentPlaced | backend/src/api/routes_video.cpp:605-629 | rows, start, end and fallback depth of a segment in numbers |
| VideoPlan.RowsAreLeast | backend/src/api/routes_video.cpp:433-434 | row counts are the least positive whole numbers that hold the octaves |
| VideoPlan.DefaultLimit | backend/src/api/routes_video.cpp:438-451 | without a requested height the limit is 8192, or 512 above larger padding, never above 32759, and leaves room exactly for padding below 32759 rows |
| VideoPlan.Place | backend/src/api/routes_video.cpp:605-629 | start, end and fallback depth in closed form: the clamps, the repair of an empty range and the 0.25 floor never act |
| VideoPlan.DealFrames | backend/src/api/routes_video.cpp:631-643 | how far a segment's frames reach, with the forced frame |
| VideoPlan.TrackKept | backend/src/api/routes_video.cpp:631-643 | enough frames are left for the remaining segments, or every segment so far took exactly one |
| VideoPlan.SegmentDealt | backend/src/api/routes_video.cpp:631-651 | no frame is shallower than its segment's start by more than 1e-12, and only a single forced frame overruns the end |
| VideoPlan.FramesPartitioned | backend/src/api/routes_video.cpp:604-654 | every frame belongs to exactly one segment |
| VideoPlan.DeepestPlannedIff | backend/src/api/routes_video.cpp:604-643 | the deepest strip is planned exactly when there are at least as many frames as segments |
| VideoPlan.ShortVideoStopsEarly | backend/src/api/routes_video.cpp:547-556 | a concrete eighteen-octave zoom in three strips with the two frames of the shortest videos: its plan ends at 12.384 octaves and its last fallback at 13.384 |
| VideoPlan.TotalFrames | backend/src/api/routes_video.cpp:658-662 | the segments' frames add up to the frame count |
| VideoPlan.PlanVideo | backend/src/api/routes_video.cpp:2560-2568 | the correction of the frame count to the segments never changes it |
| VideoPlan.FallbackCovered | backend/src/api/routes_video.cpp:617-628 | every fallback depth plus slack lies within its strip, and no fallback is shallower than the segment's end |
| VideoPlan.FallbacksDeepen | backend/src/api/routes_video.cpp:2997-3024 | fallback depths never decrease, so back-to-front synthesis only zooms in |
| VideoPlan.FrameWithinFallback | backend/src/api/routes_video.cpp:623-643 | a frame deeper than its segment's fallback is a single forced frame |
| VoxelSurface.Classify | backend/src/api/routes_mesh.cpp:671-685 | a voxel is marked exactly when its sample is below the threshold, the count is the number of such samples, and each marked voxel has its depth byte |
| VoxelSurface.DepthOrdered | backend/src/api/routes_mesh.cpp:683 | depth bytes grow with the field value within 1..254; the documented surface value 255 is never reached |
| VoxelSurface.DepthIsScaled | backend/src/api/routes_mesh.cpp:683 | depth - 1 is the whole part of v / iso * 254 |
| VoxelSurface.EachFaceOnce | backend/src/api/routes_mesh.cpp:713-740 | each face between an inside voxel and an outside neighbour is emitted exactly once, and no other face is |
| VoxelSurface.BoundaryFaces | backend/src/api/routes_mesh.cpp:673-740 | a face is emitted, once, exactly when the sample of its voxel is below the threshold and its neighbour is outside the cube or not below it |
| VoxelSurface.EmitFaces | backend/src/api/routes_mesh.cpp:713-740 | the nested loops write corners, normal and depth of exactly those faces, in voxel order |
| VoxelSurface.EmitQuad | backend/src/api/routes_mesh.cpp:728-732 | the twelve coordinates of a face are its four corners |
| VoxelSurface.FaceCount | backend/src/api/routes_mesh.cpp:742 | the face count is six times the voxels less twice the adjacent inside pairs |
| VoxelSurface.OppositeCounts | backend/src/api/routes_mesh.cpp:724-735 | opposite directions emit equally many faces, so the normals sum to zero |
| VoxelSurface.WindsAroundNormal | backend/src/api/routes_mesh.cpp:687-698 | both triangles of every face wind counter-clockwise around the stated normal |
| VoxelSurface.FacesOutward | backend/src/api/routes_mesh.cpp:691-701 | a face lies half a cell along its normal from the voxel centre |
| VoxelSurface.CornerOnLattice | backend/src/api/routes_mesh.cpp:700-701 | every corner is a grid point, so neighbouring faces meet exactly |
| VoxelSurface.FrameFilled | backend/src/api/routes_mesh.cpp:700-701 | the cells are equal and fill every axis from -extent to extent |
| VoxelSurface.SurfaceCloses | backend/src/api/routes_mesh.cpp:713-785 | the triangles of any volume form a closed surface: every edge is used equally often in both directions |
| VoxelSurface.SurfaceEncloses | backend/src/api/routes_mesh.cpp:713-785 | the signed volume enclosed by the triangles is exactly that of the inside voxels |
| VoxelSurface.SurfaceIsWhole | backend/src/api/routes_mesh.cpp:724-737 | a quantity that cancels across shared faces sums over the surface as over all faces of the inside voxels |
| VoxelSurface.WriteTriangles | backend/src/api/routes_mesh.cpp:748-785 | the flat arrays are turned into the two triangles of every face |
| VoxelSurface.TransitionVoxels | backend/src/api/routes_mesh.cpp:669-785 | the whole export: closed and enclosing exactly the voxels below the threshold; a face for every pair of a voxel below it and a neighbour that is not, once each; the voxel count is the number of samples below the threshold, and every face carries its own voxel's depth byte |
| CostModel.ExactIff | backend/src/compute/engine_select.cpp:73-81 | with two or more points the prediction meets every measurement exactly when times never fall and none is below a microsecond |
| CostModel.CurveIsLine | backend/src/compute/engine_select.cpp:73-81 | between and beyond two measurements of growing time the prediction is the straight line through both, at falling time it stays level, and it is never below 0.001 ms |
| CostModel.MonotoneIff | backend/src/compute/engine_select.cpp:244-262 | a larger render is never predicted to finish sooner, from size zero on, exactly when no interior measurement dips (several points) or the only time is at most 0.001 ms (one point) |
| CostModel.SinglePoint | backend/src/compute/engine_select.cpp:245-249 | one point predicts in proportion for positive sizes; for size zero it predicts more than for a positive size exactly when its time exceeds 0.001 ms and that size is below its own |
| CostModel.CoalesceSorted | backend/src/compute/engine_select.cpp:222-242 | one point per size, sizes strictly increasing, holding all samples and all sample-weighted time of that size |
| CostModel.CoalescedUnique | backend/src/compute/engine_select.cpp:222-242 | samples coalesce in only one way |
| CostModel.CoalescesPermute | backend/src/compute/engine_select.cpp:222-242 | the order of the samples does not matter |
| CostModel.TwoSamples | backend/src/compute/engine_select.cpp:231-246 | two samples of one size become their mean weighted by the sample counts; of two sizes both remain |
| CostModel.SortByWork | backend/src/compute/engine_select.cpp:223-225 | a sorted permutation of the samples |
| CostModel.Evaluate | backend/src/compute/engine_select.cpp:244-262 | the search for the interval evaluates the curve, extrapolating at both ends |
| CostModel.Predict | backend/src/compute/engine_select.cpp:199-274 | measured samples decide, then throughput, else there is no prediction |
| CostModel.PredictionPermute | backend/src/compute/engine_select.cpp:199-274 | a prediction is unchanged by permuting the benchmark entries |
| CostModel.OthersIrrelevant | backend/src/compute/engine_select.cpp:206-210 | an entry of another family, scalar type or engine, or one that is not available, changes no prediction |
| CostModel.OneEntryPredicts | backend/src/compute/engine_select.cpp:206-274 | one available entry of the very profile decides: its measurement in proportion, else its throughput, else nothing |
| CostModel.SelectEngine | backend/src/compute/engine_select.cpp:276-296 | the first of the candidates predicted fastest, or the fallback when none is predicted |
| CostModel.SelectionPermute | backend/src/compute/engine_select.cpp:276-296 | the chosen engine is determined by the entries, in any order |
| CostModel.BenchmarkCache.Merge | backend/src/compute/engine_select.cpp:166-180 | a keyed map update: last write wins per slot, slots stay unique and in place, others are untouched |
| CostModel.BenchmarkCache.Put | backend/src/compute/engine_select.cpp:168-178 | the incoming entry is held; every entry that differs from it in family, workload, engine, scalar or size stays; the table grows exactly when no entry agreed in all five |
| CostModel.MergedHolds | backend/src/compute/engine_select.cpp:166-180 | after a merge the batch's last entry of each slot is held, and every entry of a slot the batch does not name stays |
| CostModel.BenchmarkCache.HasEntries | backend/src/compute/engine_select.cpp:187-192 | whether any entry is available |
| CostModel.ReplaceIsClearAndMerge | backend/src/compute/engine_select.cpp:157-185 | replacing the cache by a batch of distinct slots predicts as clearing it and merging the batch does |
| CostModel.SameSlotsPredictSame | backend/src/compute/engine_select.cpp:59-65 | caches that hold the same for every slot predict the same, whatever order they were merged in |

## Left out

- Floating point: warps, colouring, depths, timings and vertex coordinates are real numbers here; rounding, infinities and NaN are not modelled. Escape iteration is exact machine arithmetic.
- HTTP, JSON, file formats, PNG and STL bytes, SQLite and PostgreSQL engines: a transaction that holds its row lock is one step.
- The renderer: any sequence of tile callbacks that ends in full-size buffers, an exception or a cancellation.
- `step_cached` of the escape loop is an arbitrary function of the point and its squares; the vector and CUDA kernels and the cancellable variant of the loop are not part of this model.
- EscapeGates.Iterate: leaves out the conversion of raw magnitudes to double and the branch at escape_time.hpp:224-230, whose condition contradicts lines 203-207.
- FieldService.Registry: sessions, flags and encoders are numbered records in sequences instead of heap objects behind shared pointers, so aliasing is by number; map iteration order is arbitrary; statistics, error texts and palettes are dropped.
- FieldService.Registry.PruneSessions: reads all sessions in one step although the program locks them one by one; the same loop on sessions read at different times is `FieldScans.PruneOnReads`, and its erasures and stop requests are single events of the model.
- FieldService.Registry.MakeRoomForOne: likewise; see `FieldScans.MakeRoomOnReads`. On stale reads it may ask a session to stop that just finished.
- Time is a logical clock in milliseconds that only moves forward.
- Preview waiting: whether a waiting preview is ever admitted; the program gives no such guarantee.
- GatewayService.Gateway: node registration and changing limits, health probes, capability tables and the `terminal_at` column; health and capability are the sets given to a reservation.
- PreviewSlots.PreviewSlots.TryAdmit: limits are fixed while previews are in flight.
- Artifacts.ExternalIdMeans: takes run identifiers to be UUIDs in text form, which hold no colon.
- IdempotentNode: SHA-256 and the response text; equal hashes are equal requests, and a response is the run it names.
- VideoPlan.BuildSegments: leaves out segment durations in seconds and the unused seconds-per-octave argument.
- VoxelSurface.Classify: takes field values to be non-negative, as the volume builder makes them; the size of the triangle counter is unbounded.
- CostModel.SortByWork: stands for the library sort; entries of one size may come out in any order.
- Marching-cubes meshes, the formula compiler, equalization, ffmpeg pipes, capability reports, request validation and the frontend.
