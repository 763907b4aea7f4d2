# Gremuchaya: a verified model of its hard cores

This project models five components of the Gremuchaya monorepo in Dafny and proves
what they promise, or the exact condition under which they keep the promise.

| component | source | modules |
|---|---|---|
| grid layout resolver | `packages/layout-engine/src/index.ts` | `GridGeometry`, `GridPlacement`, `GridGrowth`, `GridGaps`, `GridLayout`, `GridHoles`, `GridPriority`, `GridPolicies`, `GridTurns` |
| simulation curves | `packages/domain/src/simulationCurve.ts` | `CurvePoints`, `CurveEvaluation`, `MonotoneCurves`, `CurveOvershoot`, `MonotoneShapes`, `CurveShapes` |
| material library | `apps/control-plane/src/material/` | `MaterialLibrary`, `ReferenceCounts`, `MaterialStatus`, `MaterialBytes`, `MaterialStore`, `VersionPaging`, `WatchStream`, `WatchDelivery`, `UploadPlan` |
| conversion queue | `apps/control-plane/src/conversion/` | `ConversionQueue`, `ConversionSafety`, `ConversionStore`, `ConversionWorker`, `ConversionRetries` |
| integration jobs, watch hub | `apps/control-plane/src/integration/`, `apps/file-bridge/src/BridgeEventHub.ts` | `IntegrationJobs`, `IntegrationProposals`, `IntegrationRecords`, `IntegrationService`, `EventHub` |

`Results`, `StableSorting`, `OrderedRows` and `RealArithmetic` hold what several
modules share: optional values, the platform's stable sort, `ORDER BY`, and a few
facts about real products. `dafny verify dfyconfig.toml` checks everything.

## How the model is built

- Code that works in place is a method on an array or a class, proved against a
  function of the old state; the theorems are about that function. The layout passes
  rewrite an array of tiles, the monotone sweep an array of tangents, the stores and
  the hub are classes.
- The resolver's placement is specified by a relation rather than by its loops: a
  first fit is the richest variant that has room, at the least free position in
  row-major order (`IsFirstFit`), and `FirstFitUnique`, `RunUnique` and `LayoutUnique`
  show that the relation leaves exactly one answer, errors included.
- What an operation answers is also stated without its own definition: layouts in terms
  of cells, pixels, declared policies and the request's indices (`GridPriority`,
  `GridPolicies`, `GridTurns`), tangents without square roots (`MonotoneShapes`),
  readings as chords, steps and cubics with given end slopes (`CurveShapes`), rows by
  what each call may do to them (`MaterialStatus`, `ConversionRetries`,
  `IntegrationRecords`).
- Each SQL statement is one atomic step on maps of rows. The material library is a
  step function over calls, so a run is any sequence of calls by anybody.
- The conversion queue and the integration jobs are transition systems with a program
  counter per worker or handler. Crashes, lost replies, lease expiries and any
  interleaving are ordinary events; an event whose guard does not hold changes
  nothing, so the theorems quantify over all sequences of events. The worker and the
  request handlers are also written as methods, whose every effect is recorded as an
  event of the same system; the worker's methods let everybody else take arbitrary
  steps before the claim, while it renders, and before it writes the row.
- Numbers in curves are reals. The square root of the sweep is a parameter `root`
  with `root(x) > 0` and `root(x) * root(x) == x` for `x > 9`, the only arguments the sweep takes.
- Identifiers, hashes and storage keys are only compared, so they are numbers.

## Where the code and its own description differ

- `packages/layout-engine/src/index.ts:101-102` promises no empty cell unless every
  tile touching it has reached its maximum. The code keeps this for all requests on a
  grid of C columns and R rows exactly when C = 1 or R = 1 (`PromiseExact`), and leaves
  no empty cell for all requests without maxima exactly when C <= 2 or R <= 2
  (`HoleFreeExact`). `CornerBreaksPromise` and `PinwheelLeavesHole` give the requests.
- `apps/control-plane/src/material/store.ts:1414-1419` says a reference follows the
  material; the statement (1465-1471) makes it follow the version row, and the model
  follows the statement. The counts are exact throughout a run if and only if the run
  never opens a version for a material that still holds a claim of its own
  (`ConservationExact`); `EarlyVersionLosesContent` is a run in which that one call
  lets a later purge drop the object of another material that is ready.
- `apps/control-plane/src/material/store.ts:970-976` takes an object row for bytes that
  exist, and 1990-1992 says a restored material is ready only if it has bytes to be
  ready with. The row is there as soon as an upload begins, and a version names its row
  before its bytes arrive (1481-1490). So a second upload of content still in flight is
  ready at once (`ReadyBeforeBytes`), and so is a material trashed and restored in the
  middle of an upload (`RestoredBeforeBytes`). The content of every ready material has
  been completed throughout a run if and only if no call does either, or purges the
  object of another ready material (`ReadyFilledExact`); the last cannot happen while
  the counts are exact (`ExactCountsKeepReady`). Trash and restore give a material back
  as it was if and only if no new version was being uploaded (`RestoreExact`).
- `apps/control-plane/src/material/store.ts:1161-1169` checks a completion against the
  content the material reserved, but not the version the session was opened for. The
  current version is the content the material records throughout a run if and only if
  the run never completes an upload that a newer version has outdated
  (`CurrentContentExact`, with the run in `OutdatedBecomesCurrent`).
- `apps/control-plane/src/material/store.ts:1213-1226` makes a material ready without
  looking at its trash mark. Trashed materials are shown as trashed throughout a run if
  and only if it completes no upload of one (`TrashShownExact`, `CompletedInTrash`).
- `apps/control-plane/src/material/store.ts:841-845` calls the change stream never
  silently lossy. On a library that stands still the stream delivers everything if and
  only if no millisecond fills a batch and leaves more than a batch from it on
  (`DeliversAllExactly`); otherwise the last row never arrives (`CrowdedLosesLast`,
  `TwinLost`).
- `apps/control-plane/src/conversion/store.ts:102-103` says a job stops being retried
  and stays FAILED. A worker that dies on the last attempt leaves the job RUNNING for
  good (`AbandonedForever`, `AbandonedReachable`). A job can still end completed or
  failed, in some continuation, if and only if it is not running on its last attempt
  with nobody holding it (`SettlesExactly`).
- `apps/control-plane/src/integration/service.ts:566-586` answers a retry from the
  recorded job, but for a pull request the proposal is checked first (300-311). A retry
  of a succeeded request is answered exactly if its goal is still admitted then
  (`RetryExact`); once the proposal is settled or names its pull request, the retry is
  refused for good (`PublishedRefused`, with the run in `PublishedRetryRefused`).
- `apps/control-plane/src/integration/service.ts:296-299` says the early check keeps a
  settled proposal from acquiring a real pull request. A ruling that falls between the
  check and the call does not stop the call (`RejectedStillAsked`), and a handler that
  stops before publishing leaves the proposal open to a second one (`CrashAsksTwice`).
  A run keeps to one call for a proposal, however it goes on, if and only if it has made
  none and all handlers past the check of the closed proposal compete for one job, or it
  has made one and no such handler is left (`OneCallExactly`).
- `apps/control-plane/src/integration/service.ts:300-311` lets a proposal under review that
  names no pull request through, but its update from PROPOSED to PROPOSED (356-363) is no
  declared move (`apps/control-plane/src/integration/store.ts:88-95`). Such a request opens
  a pull request, is then refused, and leaves the proposal open to the next one: what was
  opened is recorded if and only if the proposal was a draft (`OpenedAndRecordedExactly`).
- The second check of `apps/file-bridge/src/BridgeEventHub.ts:86` never fires: no
  other step runs between the loop condition and the parking, and no wake-up is lost
  without it.

## Model

| member | source | states |
|---|---|---|
| `GridGeometry.GrowthStep` | packages/layout-engine/src/index.ts:435-467 | growing a tile one step into room it fits keeps every tile in bounds and disjoint, moves no edge inwards, and covers at least one cell that was empty |
| `GridGeometry.UsedRowsIsMaximum` | packages/layout-engine/src/index.ts:153 | the row count is an upper bound of all bottom edges and is attained, or is zero |
| `GridPlacement.FindPlacement` | packages/layout-engine/src/index.ts:249-274 | the answer is the first variant with any eligible free position, at the least such position by row and column, or none exactly when every variant has no room |
| `GridPlacement.FirstFitUnique` | packages/layout-engine/src/index.ts:257-273 | a tile, a placed list and a grid have only one first fit |
| `GridPlacement.Decide` | packages/layout-engine/src/index.ts:115-149 | a tile is placed, placed without the floor, relocated, hidden or an overflow exactly under the conditions its policies set |
| `GridPlacement.PlaceTiles` | packages/layout-engine/src/index.ts:115-149 | the three lists are those of a run that decided every tile, and the error names the tile whose decision is overflow, all before it having been decided otherwise |
| `GridPlacement.RunUnique` | packages/layout-engine/src/index.ts:115-149 | two runs over the same tiles take the same decisions |
| `GridPlacement.FirstFitIsTight` | packages/layout-engine/src/index.ts:266-270 | a placed tile's moves one up and one left are blocked by the edge or a tile placed earlier, and it clears the floor |
| `GridPlacement.PlacementSound` | packages/layout-engine/src/index.ts:115-149 | whatever the run decides, placed tiles are in bounds, disjoint and tight, and tiles that could have left clear the floor |
| `GridPlacement.NothingLost` | packages/layout-engine/src/index.ts:115-149 | as multisets, placed, relocated and hidden ids together are exactly the ids decided |
| `GridPlacement.CompactTiles` | packages/layout-engine/src/index.ts:276-283 | the array ends with each tile, in order, slid up as far as it goes and then left as far as it goes, cell by cell |
| `GridPlacement.CompactionSound` | packages/layout-engine/src/index.ts:276-283 | compaction keeps any valid list valid, reaches its end by single moves each into cells then free, and on a list placement can build moves nothing |
| `GridGrowth.StretchTiles` | packages/layout-engine/src/index.ts:285-320 | the array ends as the stretch fixpoint of what it was, sweep by sweep |
| `GridGrowth.SweepTiles` | packages/layout-engine/src/index.ts:294-318 | one sweep takes one turn per tile in order, and reports a change exactly when the array changed |
| `GridGrowth.StretchedSound` | packages/layout-engine/src/index.ts:291-319 | the fixpoint is valid, only extends tiles, passes no cap and leaves no opted-in tile a step right or down |
| `GridGaps.EmptyCells` | packages/layout-engine/src/index.ts:354-370 | the cells listed, row by row, are those no tile covers |
| `GridGaps.EmptyListExact` | packages/layout-engine/src/index.ts:365-368 | a cell is listed exactly if it is inside the used rows and uncovered |
| `GridGaps.FindGrowth` | packages/layout-engine/src/index.ts:372-398 | the growth found is the first candidate that opted in, failing that the first candidate, in tile and direction order |
| `GridGaps.GrowthForExact` | packages/layout-engine/src/index.ts:379-420 | a growth is found exactly if some tile can cover the cell by one step within its cap, and what is found is such a growth |
| `GridGaps.CloseGaps` | packages/layout-engine/src/index.ts:334-352 | the array ends as the gap-closing fixpoint of what it was; the loop ends because the set of empty cells shrinks |
| `GridGaps.ClosedSound` | packages/layout-engine/src/index.ts:340-351 | after gap closing the layout is valid, extends what it was within caps, and no tile can cover any empty cell by one step |
| `GridGaps.StretchSurvives` | packages/layout-engine/src/index.ts:151-156 | gap closing gives no opted-in tile a new stretch: the stretch fixpoint is still one |
| `GridLayout.ResolveGridLayout` | packages/layout-engine/src/index.ts:104-163 | the answer is the one the request determines: invalid, overflow of a named tile, or the grown layout of its placement in priority order (`AnsweredByPriority` says which order, `RefusedExactly` what is invalid) |
| `GridLayout.GrowPlaced` | packages/layout-engine/src/index.ts:151-156 | compaction changes nothing, then the list is stretched and its gaps closed within the rows then in use |
| `GridLayout.LayoutSound` | packages/layout-engine/src/index.ts:94-163 | every layout has tiles in bounds and disjoint, exact used rows, every requested id in exactly one list, no gap closable by one step, no stretch left, caps respected and the floor kept for tiles that could have left |
| `GridLayout.LayoutUnique` | packages/layout-engine/src/index.ts:104-163 | a request has one answer, error included |
| `GridLayout.OverflowExact` | packages/layout-engine/src/index.ts:128-148 | the overflow error is raised exactly when the run reaches a tile without policy that has no free position for any variant even without the floor |
| `StableSorting.SortKeepsTies` | packages/layout-engine/src/index.ts:109-111 | elements of equal key come out in the order of their own input positions |
| `GridPriority.DecidedByPriority` | packages/layout-engine/src/index.ts:109-111 | tiles are decided in the one order of the request's indices by falling priority, equal priorities by index |
| `GridPriority.AnsweredByPriority` | packages/layout-engine/src/index.ts:109-149 | every answer, layout or overflow, is the placement loop's on the tiles in that order |
| `GridPriority.LowerPrioritiesYield` | packages/layout-engine/src/index.ts:109-149 | dropping all tiles below a priority leaves a request that is answered too: the remaining tiles are placed first at the same positions, and the same are relocated and hidden |
| `GridPolicies.RefusedExactly` | packages/layout-engine/src/index.ts:183-247 | a request is invalid exactly if it has no cells, a width that is not positive, a blank or repeated id, a tile without variants, an empty variant, a variant larger than the one before it, or a maximum below one |
| `GridPolicies.OverlapIsSharedCell` | packages/layout-engine/src/index.ts:458-467 | two proper tiles overlap exactly if some cell belongs to both |
| `GridPolicies.CellsOnce` | packages/layout-engine/src/index.ts:94-103 | in an answer a tile's cells lie in the used rows and belong to no other tile |
| `GridPolicies.HoleExplained` | packages/layout-engine/src/index.ts:372-420 | a tile beside an empty cell is at its maximum on that axis, or another tile stands among the cells its growth would add |
| `GridPolicies.StretchExplained` | packages/layout-engine/src/index.ts:285-320 | a tile that asked to stretch and is below its size is stopped by the edge or by a covered cell beside it |
| `GridPolicies.LeavesByPolicy` | packages/layout-engine/src/index.ts:140-147 | a tile is relocated only by the route it declares, and hidden only if it declares hiding and no route |
| `GridPolicies.KeptWithoutPolicy` | packages/layout-engine/src/index.ts:128-148 | a tile that declares neither is placed in every answer |
| `GridPolicies.OverflowNamesRequired` | packages/layout-engine/src/index.ts:148 | an overflow names a tile of the request that declares neither a route nor hiding |
| `GridPolicies.FloorInPixels` | packages/layout-engine/src/index.ts:112-113 | a width clears the floor exactly if its share of the container is no narrower than the minimum |
| `GridPolicies.NeverTooNarrow` | packages/layout-engine/src/index.ts:42-58 | no placed tile that declares a way to leave is drawn narrower than the minimum, also after growing |
| `GridPolicies.FirstFitIsFirst` | packages/layout-engine/src/index.ts:257-273 | whatever place some variant has, the place found is of an earlier variant, or of the same one higher up or further left |
| `GridPolicies.LargestPlaced` | packages/layout-engine/src/index.ts:212-220 | in a valid request no variant with room is larger than the one placed |
| `GridTurns.TurnByCells` | packages/layout-engine/src/index.ts:294-318 | a tile's turn is one column right if it asked, is below its size and the cells there are free; failing that one row down; failing that nothing |
| `GridTurns.SweepInTurn` | packages/layout-engine/src/index.ts:294-318 | a sweep is these turns from the first tile to the last, each on what the one before left |
| `GridTurns.GrowthWins` | packages/layout-engine/src/index.ts:372-398 | the growth that covers a cell goes before every other that could: opted in along its axis first, then by tile, then right, down, left, up |
| `GridTurns.FirstGapFirst` | packages/layout-engine/src/index.ts:340-370 | the gap closed next is the first empty cell, row by row, that any growth can cover, covered by the growth that goes before all others |
| `GridTurns.SlideStops` | packages/layout-engine/src/index.ts:276-283 | a slide takes one tile over free cells in one direction to the first place it cannot leave |
| `GridTurns.UpBeforeLeft` | packages/layout-engine/src/index.ts:276-283 | compaction goes up before left: a list on which the other order ends elsewhere |
| `GridHoles.PromiseExact` | packages/layout-engine/src/index.ts:101-102 | the documented promise holds for all requests on a C by R grid if and only if C = 1 or R = 1 |
| `GridHoles.HoleFreeExact` | packages/layout-engine/src/index.ts:324-333 | requests without maxima are all answered without a hole on a C by R grid if and only if C <= 2 or R <= 2 |
| `GridHoles.LineKeepsPromise` | packages/layout-engine/src/index.ts:101-102 | on a single line, a tile touching a hole is at its cap |
| `GridHoles.NarrowFull` | packages/layout-engine/src/index.ts:324-352 | with one side at most two and no caps, closed gaps mean no hole at all |
| `GridHoles.CornerBreaksPromise` | packages/layout-engine/src/index.ts:101-102 | on every grid of at least 2 by 2 a capped corner tile beside a wide one leaves a hole that the wide tile touches below its cap |
| `GridHoles.PinwheelLeavesHole` | packages/layout-engine/src/index.ts:101-102 | on every grid of at least 3 by 3 four uncapped tiles form a pinwheel whose centre stays empty |
| `StableSorting.SortIsStable` | packages/domain/src/simulationCurve.ts:74-77 | the sort is ascending, a permutation, and keeps input order inside each key |
| `StableSorting.StableSortUnique` | packages/domain/src/simulationCurve.ts:74-77 | ascending order and the per-key orders determine the sequence |
| `CurvePoints.NormalizeCurvePoints` | packages/domain/src/simulationCurve.ts:76-88 | the result has strictly ascending times and, for every time, exactly the point listed last for it |
| `CurvePoints.NormalizationUnique` | packages/domain/src/simulationCurve.ts:68-75 | a list has one normalisation, so all consumers agree |
| `CurvePoints.NormalizationIdempotent` | packages/domain/src/simulationCurve.ts:76-88 | normalised points are their own and only normalisation |
| `CurvePoints.NormalizationTimes` | packages/domain/src/simulationCurve.ts:76-88 | a time occurs in the result exactly if it occurs in the input |
| `CurvePoints.LastListedWins` | packages/domain/src/simulationCurve.ts:80-86 | every normalised point is one of those listed, and no later one is listed for its time |
| `CurveEvaluation.EvaluateNormalizedCurve` | packages/domain/src/simulationCurve.ts:329-357 | the loop search reads the segment the specification locates, with ends held or wrapped; what it reads is `EndsHold`, `StepHolds`, `LinearRead` and `HermiteMeetsSlopes` |
| `CurveEvaluation.EvaluateCurve` | packages/domain/src/simulationCurve.ts:101-107 | no curve reads as nothing; otherwise the reading is that of the one normalisation of its points |
| `CurveEvaluation.LocateUnique` | packages/domain/src/simulationCurve.ts:345-352 | the search finds the one segment whose half-open interval holds the time |
| `CurveEvaluation.ControlTimesRead` | packages/domain/src/simulationCurve.ts:342-376 | on a non-looping curve every control time reads its own value under all four interpolations |
| `CurveEvaluation.BezierIsHermite` | packages/domain/src/simulationCurve.ts:378-415 | a bezier segment equals the hermite segment at every progress |
| `CurveEvaluation.BezierCurveIsHermiteCurve` | packages/domain/src/simulationCurve.ts:366-372 | whole bezier and hermite curves agree at every phase, looping or not |
| `CurveEvaluation.PositiveRemainderUnique` | packages/domain/src/simulationCurve.ts:318-321 | the remainder is the one representative in [0, span), for negative values too |
| `CurveEvaluation.PositiveRemainderShift` | packages/domain/src/simulationCurve.ts:318-321 | adding whole spans leaves the remainder unchanged |
| `CurveEvaluation.LoopRepeats` | packages/domain/src/simulationCurve.ts:339-343 | a looping curve is unchanged by shifting the phase by whole spans either way |
| `CurveEvaluation.LoopAgreesInside` | packages/domain/src/simulationCurve.ts:339-343 | inside its span a looping curve reads as the plain one |
| `CurveShapes.EndsHold` | packages/domain/src/simulationCurve.ts:334-344 | no points read as nothing, one point as a constant; a plain curve holds its first value before its span and its last after it |
| `CurveShapes.StepHolds` | packages/domain/src/simulationCurve.ts:367-368 | a step curve reads the value of the point it left at every time before the next point |
| `CurveShapes.LinearRead` | packages/domain/src/simulationCurve.ts:373-374 | a linear curve runs along each segment's chord, ends included |
| `CurveShapes.LinearBlends` | packages/domain/src/simulationCurve.ts:373-374 | two times of one linear segment and any blend of them: the blend reads the blend of the readings |
| `CurveShapes.HermiteMeetsSlopes` | packages/domain/src/simulationCurve.ts:378-392 | a hermite segment is one cubic that leaves its first value with the out tangent and reaches its second with the in tangent |
| `CurveShapes.LineReadsItself` | packages/domain/src/simulationCurve.ts:156-205 | points on a line, given monotone tangents, read as that line at every time of their span |
| `MonotoneCurves.MonotoneTangents` | packages/domain/src/simulationCurve.ts:156-205 | the points keep times and values of the normalisation and carry, in and out, the tangents of the sweep |
| `MonotoneCurves.SweepTangents` | packages/domain/src/simulationCurve.ts:170-199 | the in-place pass over neighbouring tangents is the sweep, step by step; what the sweep is, without its formulas, is `TangentsByReference` |
| `MonotoneCurves.TangentsSettle` | packages/domain/src/simulationCurve.ts:181-199 | although later steps rescale tangents shared with earlier segments, in the end every segment's two tangents lie between zero and three times its secant |
| `MonotoneShapes.TangentsByReference` | packages/domain/src/simulationCurve.ts:162-199 | the tangents are what one pass over the segments makes of the slopes' means: a pair inside the circle of radius three slopes is kept, one outside is moved straight onto it, a plateau's is flat |
| `MonotoneShapes.ReferenceUnique` | packages/domain/src/simulationCurve.ts:181-199 | such a pass leaves no choice: from one start two passes agree at every step |
| `MonotoneShapes.PairTamed` | packages/domain/src/simulationCurve.ts:186-198 | one step of the sweep, in slopes: same direction, on the circle, no square root |
| `MonotoneShapes.GentleMeans` | packages/domain/src/simulationCurve.ts:170-179 | where slopes keep their sign and neither neighbour exceeds twice the other, the final tangents are the end slopes and the means |
| `MonotoneShapes.LineReproduced` | packages/domain/src/simulationCurve.ts:162-199 | points of one slope have that slope as every tangent |
| `MonotoneShapes.TurnsAreFlat` | packages/domain/src/simulationCurve.ts:174-177 | a point not strictly between its neighbours' values ends with a flat tangent |
| `CurveOvershoot.SegmentBetween` | packages/domain/src/simulationCurve.ts:378-392 | with settled tangents a hermite reading lies between the end values of its segment |
| `CurveOvershoot.SegmentRises` | packages/domain/src/simulationCurve.ts:378-392 | between ascending end values a settled segment is nondecreasing |
| `CurveOvershoot.NoOvershoot` | packages/domain/src/simulationCurve.ts:156-205 | for any points, after the tangents are computed no reading leaves the interval of its segment's end values |
| `CurveOvershoot.NeverFalls` | packages/domain/src/simulationCurve.ts:156-205 | through ascending values the whole non-looping curve is nondecreasing in the phase |
| `MaterialLibrary.StepConsistent` | apps/control-plane/src/material/store.ts:906-2010 | every call, granted or refused, keeps pointers inside their own material, version numbers within the revision and distinct per material, and sessions' versions in the session's material |
| `MaterialLibrary.RunConsistent` | apps/control-plane/src/material/store.ts:906-2010 | the same over whole runs of begin, complete, cancel, new version, metadata, trash, restore and purge |
| `MaterialStatus.ReadyNamesVersion` | apps/control-plane/src/material/store.ts:1993-1997 | over every run from an empty library a ready material names a version that exists and is its own |
| `MaterialStatus.RestoreExact` | apps/control-plane/src/material/store.ts:1986-1999 | trash and restore change nothing but two revisions and the instant if and only if the material was not uploading a named version; it returns ready exactly if it names one |
| `MaterialStatus.RepliesExact` | apps/control-plane/src/material/store.ts:1278-1300 | a call is not found, failed, or granted exactly by its row's group, its row's state and the freshness of the ids drawn |
| `MaterialStatus.RefusedChangesNothing` | apps/control-plane/src/material/store.ts:1278-1300 | a refused call leaves all four tables as they were, and only who may not edit is denied |
| `MaterialStatus.ChangesAreStamped` | apps/control-plane/src/material/store.ts:1213-1226 | a material goes exactly by a purge from the trash; any other change to it is one revision at the instant of the call, by its own group |
| `MaterialStatus.GrantsStamp` | apps/control-plane/src/material/store.ts:1690-1700 | a granted call stamps the material it acts on, and describing it changes nothing more |
| `MaterialStatus.CreatedByBegin` | apps/control-plane/src/material/store.ts:964-984 | only a begun upload creates a material: at revision one, ready with a version exactly if the object is held |
| `MaterialStatus.GroupsApart` | apps/control-plane/src/material/store.ts:1142-1148 | no run of other groups' calls changes a material, version, session or object of a group |
| `MaterialStatus.SessionsMove` | apps/control-plane/src/material/store.ts:1183-1193 | a granted completion completes its session, a granted cancellation cancels it, and no other state moves |
| `MaterialStatus.ClosedForever` | apps/control-plane/src/material/store.ts:1149-1154 | a completed or cancelled upload stays so in every run, and completing or cancelling it is refused ever after |
| `MaterialStatus.CurrentContentExact` | apps/control-plane/src/material/store.ts:1161-1169 | the current version is the content the material records, throughout a run, if and only if it never completes an upload that a newer version has outdated |
| `MaterialStatus.OutdatedBecomesCurrent` | apps/control-plane/src/material/store.ts:1213-1220 | a run that makes the second version's content current under a third one's hash |
| `MaterialStatus.TrashShownExact` | apps/control-plane/src/material/store.ts:1213-1226 | trashed materials are shown as trashed throughout a run if and only if it completes no upload of one |
| `MaterialStatus.CompletedInTrash` | apps/control-plane/src/material/store.ts:1213-1226 | a run that leaves a trashed material ready |
| `ReferenceCounts.BeginHolders` | apps/control-plane/src/material/store.ts:943-999 | beginning adds exactly one holder under its key: a version row if the object is held, otherwise a claim |
| `ReferenceCounts.CompleteHolders` | apps/control-plane/src/material/store.ts:1183-1227 | completing a first upload turns its claim into its version row; any other completion moves no holder |
| `ReferenceCounts.NewVersionHolders` | apps/control-plane/src/material/store.ts:1464-1505 | a new version adds its row and ends the material's own claim wherever it was |
| `ReferenceCounts.NewVersionConservesExactly` | apps/control-plane/src/material/store.ts:1464-1505 | opening a version keeps all counts exact if and only if the material holds no claim |
| `ReferenceCounts.DestroyHolders` | apps/control-plane/src/material/store.ts:1834-1898 | a purge removes exactly the holders of its material |
| `ReferenceCounts.PurgeDropsExactly` | apps/control-plane/src/material/store.ts:1870-1898 | an object row is dropped exactly when the purged material held it and nothing else did, for all its hashes at once |
| `ReferenceCounts.StepConserves` | apps/control-plane/src/material/store.ts:906-2010 | of all calls, only versioning a claiming material breaks the counts, and it always does |
| `ReferenceCounts.ConservationExact` | apps/control-plane/src/material/store.ts:906-2010 | from an empty library the counts are exact throughout a run if and only if that call is never made |
| `ReferenceCounts.EarlyVersionLosesContent` | apps/control-plane/src/material/store.ts:1194-1227 | a run with that call in which a purge drops the object of another ready material and leaves a row nobody holds |
| `MaterialBytes.ReadyFilledExact` | apps/control-plane/src/material/store.ts:943-984 | the content of every ready material has been completed, throughout a run, if and only if no call begins on content held and not completed, restores a material in the middle of an upload, or purges the object of another ready material |
| `MaterialBytes.ExactCountsKeepReady` | apps/control-plane/src/material/store.ts:1862-1880 | while counts are exact no purge drops the object of a material that is ready |
| `MaterialBytes.ReadyBeforeBytes` | apps/control-plane/src/material/store.ts:970-984 | a run that makes a material ready on content whose only upload is still open |
| `MaterialBytes.RestoredBeforeBytes` | apps/control-plane/src/material/store.ts:1990-1997 | a run that restores a material as ready while the upload of its version is still open |
| `MaterialStore.Store.BeginUpload` | apps/control-plane/src/material/store.ts:943-1013 | reply and tables are those of the library's transition, and consistency is kept |
| `MaterialStore.Store.CompleteUpload` | apps/control-plane/src/material/store.ts:1142-1227 | as above, refusing closed sessions and content other than what was reserved |
| `MaterialStore.Store.CancelUpload` | apps/control-plane/src/material/store.ts:1332-1350 | as above, only while the session is open |
| `MaterialStore.Store.CreateMaterialVersion` | apps/control-plane/src/material/store.ts:1454-1517 | as above, refused for a trashed material, always claiming the object |
| `MaterialStore.Store.UpdateMetadata` | apps/control-plane/src/material/store.ts:1688-1699 | as above, raising the revision |
| `MaterialStore.Store.SetTrashState` | apps/control-plane/src/material/store.ts:1980-2003 | as above; a restored material is ready exactly if it names a version |
| `MaterialStore.Store.PurgeMaterial` | apps/control-plane/src/material/store.ts:1828-1898 | as above; hash by hash each object row is decremented or dropped, then the rows of the material go |
| `MaterialStore.Store.ReleaseAll` | apps/control-plane/src/material/store.ts:1834-1898 | releasing the named hashes one row at a time releases exactly what the material holds |
| `VersionPaging.RunAppends` | apps/control-plane/src/material/store.ts:1481-1505 | while a material exists its version rows are never changed or removed, and whatever is added is numbered past the old revision |
| `VersionPaging.NewVersionsOutnumber` | apps/control-plane/src/material/store.ts:987-999 | in every run a new version's sequence exceeds that of every version there before |
| `VersionPaging.PageAt` | apps/control-plane/src/material/store.ts:604-641 | a page asked with a cursor of an earlier library shows the next rows of that earlier library's list |
| `VersionPaging.PagesDeliverAll` | apps/control-plane/src/material/store.ts:581-642 | following cursors delivers a prefix of the first library's versions, newest first; all of them, each once, exactly when a page said there is no more; within as many pages as versions; however many are added meanwhile |
| `VersionPaging.PageExact` | apps/control-plane/src/material/store.ts:581-642 | a page size is refused exactly outside 0 to 100; a page holds the newest versions the cursor has not passed, as many as asked for, and a cursor exactly if more are due; another group sees none |
| `OrderedRows.ListingUnique` | apps/control-plane/src/material/store.ts:608 | an order leaves one listing of a set of rows |
| `WatchStream.Watcher.Deliver` | apps/control-plane/src/material/service.ts:679-688 | the loop over a batch leaves the cursor, the delivered set and the yielded events of the event-by-event specification |
| `WatchStream.AbsorbAllSound` | apps/control-plane/src/material/service.ts:679-688 | an ordered batch at or after the cursor keeps the stream nondecreasing and free of repeats, and moves the cursor to its last event |
| `WatchStream.NeverRepeats` | apps/control-plane/src/material/service.ts:669-692 | whatever the library is at each poll, sequences never decrease and no (sequence, material) pair repeats |
| `WatchStream.ChangedExact` | apps/control-plane/src/material/store.ts:876-883 | a row read is a material of the caller's group at its own update instant, from the cursor on, and every such material is one |
| `WatchStream.YieldsOwnChanges` | apps/control-plane/src/material/service.ts:669-692 | whatever a stream yields is a change of its own group that a poll met, from its first cursor on |
| `WatchStream.Batch` | apps/control-plane/src/material/store.ts:855 | the batch is the allowed size nearest to what was asked for |
| `WatchDelivery.RowsFrom` | apps/control-plane/src/material/store.ts:876-886 | on an unchanged library a later reading is the tail of the earlier one |
| `WatchDelivery.DeliversAllExactly` | apps/control-plane/src/material/store.ts:836-892 | on an unchanging library polls yield a prefix of the rows due; all of them, within as many polls as rows, if and only if no millisecond from the start cursor on fills a batch with more than a batch from it on |
| `WatchDelivery.CrowdedLosesLast` | apps/control-plane/src/material/store.ts:841-845 | behind such a millisecond the last row is never yielded by any number of polls |
| `WatchDelivery.TwinLost` | apps/control-plane/src/material/store.ts:841-845 | two uploads begun in one millisecond and read one at a time: the second never arrives |
| `UploadPlan.ChunkSizeFor` | apps/control-plane/src/material/store.ts:2473-2485 | the smallest chunk, no smaller than preferred, that fits the size into 1000 parts; refused exactly past 1000 times the largest safe integer |
| `UploadPlan.PlanUploadParts` | apps/control-plane/src/material/store.ts:2441-2471 | parts are numbered from one, non-empty, contiguous from zero to the size, full chunks but for the last; a whole-object plan is one part, refused exactly past its ceiling |
| `UploadPlan.PlanUpload` | apps/control-plane/src/material/store.ts:926-927 | for every size and preference the plan has at most 1000 parts that end at the size, multipart ones of the least chunk from the preferred size up that fits it, and each refusal has its condition |
| `UploadPlan.TilesExactly` | apps/control-plane/src/material/store.ts:2463-2469 | a byte below the end lies in exactly one part, any other in none |
| `ConversionQueue.NextSound` | apps/control-plane/src/conversion/store.ts:321-536 | every event keeps the whole invariant: rows, claims, effects, workers, bucket |
| `ConversionSafety.ReachableSound` | apps/control-plane/src/conversion/store.ts:321-382 | in every reachable state claims are distinct attempts, no claim takes effect twice, no two workers hold one, a completed job has a rendition whose object is in the bucket, and a pending job has attempts left |
| `ConversionSafety.ReclaimedWritesNothing` | apps/control-plane/src/conversion/store.ts:414-478 | once another worker has claimed the job, no later step of the first changes a job or a rendition, whatever happens in between |
| `ConversionSafety.RunStaysStale` | apps/control-plane/src/conversion/store.ts:421-430 | a claim that lost its fence never regains it |
| `ConversionSafety.TerminalForever` | apps/control-plane/src/conversion/store.ts:326-364 | a completed or failed job keeps its row unchanged while it exists, and its id never returns |
| `ConversionSafety.PassesBounded` | apps/control-plane/src/conversion/worker.ts:120-190 | with no new jobs the claims of any run are at most the sum over jobs of the attempts left |
| `ConversionSafety.SettlesExactly` | apps/control-plane/src/conversion/store.ts:334-347 | from any sound state a job can still be completed or failed, in some continuation, if and only if it is not running on its last attempt unheld |
| `ConversionSafety.AbandonedForever` | apps/control-plane/src/conversion/store.ts:335 | a job running on its last attempt that nobody holds never changes again while its row exists |
| `ConversionSafety.AbandonedReachable` | apps/control-plane/src/conversion/store.ts:335 | queueing, claiming and a crash reach such a state |
| `ConversionStore.Store.EnqueueRenditions` | apps/control-plane/src/conversion/store.ts:172-238 | the variants added are those requested and not yet queued; a version out of reach queues nothing |
| `ConversionStore.EnqueuedExactly` | apps/control-plane/src/conversion/store.ts:203-216 | afterwards a target is queued exactly if it was or was asked for |
| `ConversionStore.EnqueuesAreSteps` | apps/control-plane/src/conversion/store.ts:203-216 | the statement leaves the jobs that one enqueue event per requested variant leaves |
| `ConversionStore.EnqueueStep` | apps/control-plane/src/conversion/store.ts:203-216 | an enqueue event with an undrawn id adds one waiting row at attempt zero unless its target is queued, and no rendition |
| `ConversionStore.Store.ClaimNextJob` | apps/control-plane/src/conversion/store.ts:321-382 | takes the oldest claimable visible job by creation and id, raising its attempt and its lease; nothing exactly if none is claimable |
| `ConversionStore.Store.CompleteJob` | apps/control-plane/src/conversion/store.ts:414-478 | records rendition and completion together exactly if the claim is current, else nothing |
| `ConversionStore.Store.FailJob` | apps/control-plane/src/conversion/store.ts:499-536 | settles the job as failed or pending exactly if the claim is current, else nothing; which of the two is `RetriedExactly` and `RefusalFails` |
| `ConversionRetries.RetriedExactly` | apps/control-plane/src/conversion/store.ts:509-531 | when the current holder fails for a passing reason the job can be claimed again at once, by anybody idle, if and only if attempts are left; otherwise it has failed |
| `ConversionRetries.RefusalFails` | apps/control-plane/src/conversion/store.ts:493-497 | a refusal no retry can change fails the job at any attempt |
| `ConversionRetries.AttemptsAttained` | apps/control-plane/src/conversion/store.ts:102-103 | a job whose every pass throws is granted exactly `maxAttempts` claims, each of a waiting row, and then has failed for good |
| `ConversionRetries.ClaimGrantedExactly` | apps/control-plane/src/conversion/store.ts:326-364 | a claim is granted exactly to an idle worker, with attempts left, of a waiting row or one whose lease is over; it raises the attempt by one, sets the lease and touches no other row |
| `ConversionRetries.LeaseHolds` | apps/control-plane/src/conversion/store.ts:336-347 | until the holder writes, the version is purged or somebody claims at or after its end, a lease keeps the row as the claim left it in every run |
| `ConversionRetries.ClaimHolds` | apps/control-plane/src/conversion/store.ts:354-364 | a granted claim starts such a lease |
| `ConversionRetries.CompletionRecords` | apps/control-plane/src/conversion/store.ts:431-466 | the holder's completion closes its row and names the object it uploaded, and nothing else |
| `ConversionRetries.PurgeClears` | apps/control-plane/src/db/migrations.ts:153-164 | a purge removes exactly the version's jobs and renditions |
| `ConversionRetries.FaultKinds` | apps/control-plane/src/conversion/worker.ts:124-178 | what throws is a passing failure, also where the write took effect; a refusal is a permanent one |
| `ConversionWorker.Worker.RunOnce` | apps/control-plane/src/conversion/worker.ts:120-179 | whatever others do meanwhile, a pass is idle exactly if its claim finds nothing claimable; otherwise it takes the next job in line, is unsuccessful exactly if it is refused or a call throws, and a finished pass leaves the job completed with its rendition naming an object in the bucket; undisturbed and without faults it finishes |
| `ConversionWorker.Worker.Convert` | apps/control-plane/src/conversion/worker.ts:124-178 | between claim and end of the pass others may re-claim the job: stale then means the claim is not current; unsuccessful means exactly a refusal or a throwing call |
| `ConversionWorker.Worker.Begin` | apps/control-plane/src/conversion/worker.ts:121-122 | claims the next job in line or, exactly if there is none, leaves everything as it was |
| `ConversionWorker.Worker.CloseJob` | apps/control-plane/src/conversion/worker.ts:151-172 | finished means the claim was current, the job is completed and its rendition names the key; stale means it was not and nothing changed; a completion whose reply is lost ends as a failure that changes nothing |
| `ConversionWorker.Worker.FailPass` | apps/control-plane/src/conversion/worker.ts:226-240 | reports the state the job then has, or none if the claim was stale |
| `ConversionWorker.Worker.StoreObject` | apps/control-plane/src/conversion/worker.ts:144-150 | the object is written before any row, wherever a call fails |
| `ConversionWorker.Worker.RefusePass` | apps/control-plane/src/conversion/worker.ts:124-142 | a refusal no retry can change fails the job at once |
| `ConversionWorker.Worker.RunUntilIdle` | apps/control-plane/src/conversion/worker.ts:182-190 | whatever others do, at most `maxJobs` passes, none idle, and stopping early means nothing is claimable then; if they queue nothing, at most the attempts left at the start |
| `IntegrationJobs.OneCallPerJob` | apps/control-plane/src/integration/service.ts:190-251 | in every run each job causes at most one outbound call, and all replies for a job name the same thing |
| `IntegrationJobs.NextAsking` | apps/control-plane/src/integration/store.ts:424-481 | every event keeps: one handler at most is about to ask for a job, and then nobody has asked |
| `IntegrationJobs.NextTruthful` | apps/control-plane/src/integration/service.ts:557-586 | every event keeps: each reply, given or about to be, is what the succeeded job recorded |
| `IntegrationJobs.FinishedForever` | apps/control-plane/src/integration/store.ts:55-64 | a succeeded, failed or cancelled job never changes |
| `IntegrationJobs.RetryExact` | apps/control-plane/src/integration/service.ts:300-324 | once a request's job succeeded, a retry is answered with the record exactly if its goal is admitted when checked, otherwise changes nothing, and never asks anybody |
| `IntegrationJobs.PublishedRefused` | apps/control-plane/src/integration/service.ts:300-311 | once a proposal is settled or names a pull request, every request for it is refused in all later states |
| `IntegrationJobs.NamedForever` | apps/control-plane/src/integration/store.ts:779-790 | a proposal that names a pull request names one ever after |
| `IntegrationJobs.SettledForever` | apps/control-plane/src/integration/store.ts:81-95 | a merged or rejected proposal keeps status, revision and pull request for good |
| `IntegrationRecords.JobLives` | apps/control-plane/src/integration/store.ts:55-64 | a job is created queued with nothing recorded and then only starts, is cancelled while queued, succeeds or fails |
| `IntegrationRecords.MovesExactly` | apps/control-plane/src/integration/store.ts:424-481 | a move is made exactly along these lines and from where the caller believes the job to be; what was recorded stays unless replaced |
| `IntegrationRecords.WithdrawnNeverAsked` | apps/control-plane/src/integration/service.ts:226-241 | in every run a queued or cancelled job has caused no outbound call |
| `IntegrationRecords.RetryByState` | apps/control-plane/src/integration/service.ts:210-224 | a retry goes on with its queued job, is answered by its succeeded one, and is refused in any other state; it creates no job and asks nobody |
| `IntegrationRecords.ProposalLives` | apps/control-plane/src/integration/store.ts:81-95 | a proposal starts as a draft at revision one, and each change is a declared move and one revision |
| `IntegrationRecords.DecidedExactly` | apps/control-plane/src/integration/store.ts:752-843 | a decision is taken exactly along declared moves from where the caller believes the proposal to be |
| `IntegrationRecords.AdmittedExactly` | apps/control-plane/src/integration/service.ts:300-311 | a pull request is gone on with exactly for a draft or proposed text that names none |
| `IntegrationRecords.PublishedExactly` | apps/control-plane/src/integration/service.ts:352-363 | a pull request that was opened is recorded on its proposal, and replied, exactly if the proposal is still the draft the request read |
| `IntegrationRecords.OpenedAndRecordedExactly` | apps/control-plane/src/integration/service.ts:300-365 | from any state a request for a proposal that names none opens a pull request; a draft then names it, a proposal under review is left naming none and open to the next request |
| `IntegrationProposals.SealedExactly` | apps/control-plane/src/integration/service.ts:296-337 | no further call for a proposal can follow if and only if it is settled or published and no handler past its check can still come to ask |
| `IntegrationProposals.NarrowExactly` | apps/control-plane/src/integration/service.ts:296-337 | at most one further call can follow if and only if it is settled or published and all handlers past its check compete for one job |
| `IntegrationProposals.OneCallExactly` | apps/control-plane/src/integration/service.ts:296-337 | a run from the start keeps to one call for a proposal, however it goes on, if and only if it made none and the second condition holds, or made one and the first does |
| `IntegrationProposals.PublishedRetryRefused` | apps/control-plane/src/integration/service.ts:306-311 | a run whose request succeeded and published, after which every retry of it is refused whatever follows |
| `IntegrationProposals.CrashAsksTwice` | apps/control-plane/src/integration/service.ts:338-363 | a handler that stops between success and publication, and a second request, ask twice for one proposal |
| `IntegrationProposals.RejectedStillAsked` | apps/control-plane/src/integration/service.ts:296-299 | a ruling between check and call: the call is made for a rejected proposal |
| `IntegrationService.Store.EnqueueJob` | apps/control-plane/src/integration/store.ts:344-407 | a known request returns its job and changes nothing; a new one adds a queued job and its receipt |
| `IntegrationService.Store.TransitionJob` | apps/control-plane/src/integration/store.ts:424-481 | moves exactly declared transitions from the state found, each refusal with its own reason, else nothing |
| `IntegrationService.Store.ProposeTranslation` | apps/control-plane/src/integration/store.ts:671-736 | a proposal is added as a draft exactly if there is none yet |
| `IntegrationService.Store.UpdateProposal` | apps/control-plane/src/integration/store.ts:752-843 | moves exactly declared transitions of unsettled proposals, raising the revision |
| `IntegrationService.Service.RunJob` | apps/control-plane/src/integration/service.ts:446-463 | asks once and records success with the reply or, in the job's row and no other, failure with a fixed report |
| `IntegrationService.Service.Enter` | apps/control-plane/src/integration/service.ts:210-224 | a known request resumes its own job, a finished job answers at once, and nobody is asked |
| `IntegrationService.Service.Perform` | apps/control-plane/src/integration/service.ts:226-249 | asks exactly once if there are credentials and the job is queued, and otherwise not at all; every failure leaves no reply |
| `IntegrationService.Service.PublishProposal` | apps/control-plane/src/integration/service.ts:352-365 | the proposal moves to review at the address exactly if its status is still the one first read and may move |
| `IntegrationService.Service.CreateIssue` | apps/control-plane/src/integration/service.ts:190-251 | a new request makes one call exactly if there are credentials and is answered exactly if the call is; a retry of a job past the queue makes none, changes no job and answers the record or refuses |
| `IntegrationService.Service.CreateTranslationPullRequest` | apps/control-plane/src/integration/service.ts:278-370 | a missing, settled or published proposal is refused with its own reason and nothing changes, retry or not; a retry for an open proposal whose job is past the queue asks nobody and answers the record or refuses; after a new call that is answered the proposal is under review at that address; a new request is answered exactly if the call is and the proposal was a draft |
| `EventHub.MatchingExact` | apps/file-bridge/src/BridgeEventHub.ts:59-64 | an empty filter hears everything; any other hears each wanted event as often as published |
| `EventHub.MatchingInOrder` | apps/file-bridge/src/BridgeEventHub.ts:55-64 | what is heard of two stretches of events is what is heard of the first and then of the second |
| `EventHub.Subscription.Deliver` | apps/file-bridge/src/BridgeEventHub.ts:55-64 | a wanted event is queued and the stream is not left parked; yielded plus queued stays what was published |
| `EventHub.Subscription.Turn` | apps/file-bridge/src/BridgeEventHub.ts:75-88 | a turn ends, yields the queue's head or parks on an empty queue, and loses and repeats nothing; a return asked for meanwhile takes effect at the yield |
| `EventHub.Hub.Subscribe` | apps/file-bridge/src/BridgeEventHub.ts:48-54 | asking for a stream registers nothing before its first step |
| `EventHub.Hub.Publish` | apps/file-bridge/src/BridgeEventHub.ts:14-16 | for every live stream yielded plus queued events are the matching events published since it registered, in order, and none wanting the event stays parked |
| `EventHub.Hub.Close` | apps/file-bridge/src/BridgeEventHub.ts:29-32 | the same is kept, and no stream stays parked |
| `EventHub.Hub.Abort` | apps/file-bridge/src/BridgeEventHub.ts:65-68 | the same is kept, and the stream does not stay parked |
| `EventHub.Hub.Advance` | apps/file-bridge/src/BridgeEventHub.ts:67-88 | a stream ends exactly if aborted or closed, yields the head of its queue, and parks only with an empty queue |
| `EventHub.Hub.Return` | apps/file-bridge/src/BridgeEventHub.ts:75-92 | in every phase: a stream at a yield or not begun ends and is unregistered, a parked or woken one stays live and ends with its next event |

## Left out

- Validation errors of a layout request: the messages and their order are one refusal; non-integer and non-finite numbers cannot be written in the model's types.
- Floating-point rounding of curves, and `sampleCurve`, `channelValue`, noise and severity: easy next to the evaluator.
- Mutation receipts of the material library: a replayed mutation returns its recorded answer and changes nothing, so it is not a step.
- Membership: a call carries whether its device is an active editor; how that is derived is not modelled.
- Tags, names, sizes, mime types and upload parts as rows: they never decide a transition.
- Bytes behind an object row: a completion the library granted stands for them, and what the object store holds is not modelled.
- `getMaterial`, `listMaterialPage` and the other reads: the version list carries the hard paging property.
- Page cursors as base64 text: a cursor is the sequence it encodes; a malformed one is refused before the model starts.
- `ConversionStore.Store.ClaimNextJob`: trash, missing objects and rows locked by another claim are a parameter, the set of jobs the statement can see.
- Job ids: drawn at random by the program, drawn outside all earlier ids in the model.
- The worker's timer, its temporary directory, the renderer and the object store's protocol: foreign calls, each of which may fail at any point.
- `ConversionWorker.Worker.Convert`: others take their steps at three points of a pass, not between every two of its calls; the transition system has every interleaving.
- Authorization, repository resolution and text building of the integration service: each is decided by reading one branch.
- Issue and pull request numbers: recorded and replayed together with the address, which stands for all three.
- `IntegrationService.Service.CreateIssue`: written as one handler running alone; retries and crashes in between are events of the transition system.
- The file bridge's mirror, watcher and path checks, settings, schemas, routes and user interface: not modelled.
