# Verification model

This project models five parts of the repository whose behaviour is hard to get right and proves
what they guarantee, for every input, every run and every interleaving.

1. **The logger dashboard** (`LoggerGrid`, `GridCells`, `GridSearch`, `PaneGraph`, `SharedBoundaries`,
   `DerivedOrder`, `Splitters` and the `*Facts` modules beside them, `DockOrder`, `BoundaryNames`,
   `LayoutRuns`). Panes are rectangles on an
   integer grid. Shared splitters are derived each time from which panes touch a line. The model has the
   derivation as the code performs it (pending set, growing component, cursor walk) and, independently,
   what a shared boundary is: a connected component of facing panes whose two sides tile the same stretch
   of a line. The two agree. On top of that: dragging a splitter and docking a pane never fail their
   final collision test, conserve the covered cells, keep minimum sizes, and drags do not depend on the
   path taken. Where a drag lands and what a dock does to every pane is also said on the panes alone.
2. **Coalesced requests** (`PushRuns`, `PushFacts`, `PushSettles`, `PushNets`,
   `RealtimeClients`; `CoalescedRuns`, `CoalescedSettles`, `RequestCoordination`). Two machines that share one drain among overlapping callers, one
   synchronous segment of JavaScript a step, with the history of what happened. The classes refine the
   machines: every method is exactly one step. The two differ in when they clean up, and the difference
   decides whether a request can be lost.
3. **The station index** (`StationGroups`, `StationFacts`, `StationOrder`, `StationNews`, `Stores`). Groups kept by
   diffing each snapshot against the previous one, against plain functions of the whole history.
4. **Chat messages** (`ChatState`, `ChatView`). The keyed map with snapshot reconciliation and bounded
   trimming, and the append path against the full sort-and-render.
5. **Two scanners** (`ChatText`, `ChatImage`). Link splitting, and the PNG chunk walk against the chunk
   encoding of sections 3.1 and 3.2 of RFC 2083.

`Wrappers`, `Sequences` and `PaneIds` hold small shared definitions. Run `dafny verify dfyconfig.toml`
in this directory to check everything.

## What holds, and where it stops holding

- A resize that is not refused by its guards always succeeds, and the boundary it moved is derivable
  afterwards with the same sides and limits. It is looked up **by name**, though, and the name joins the
  pane ids with `,` and `:`. The ids the dashboard passes contain neither
  (`client/src/public/js/byView/liveNet/ncoLogger.js:27`), and then path independence and undo hold
  outright. For arbitrary ids `BoundaryNames` gives the exact condition and a layout in which a second
  drag moves another splitter.
- `push` loses no request. `CoalescedAsyncRequest` does, in one window: between the drain's last loop
  test and the `finally` callback a request is told it was coalesced, and nothing executes for it
  (`NothingAfterEnd`; `WindowLosesARequest` is a run). Outside the window, in every reachable state, a
  request has been executed for, or its drain has thrown, or the live drain's next step executes for it
  (`UnservedRequestIsOwed`); and when a request's promise resolves it has been executed for if and only
  if it did not arrive in the window (`ServedUnlessInWindow`).
- A role group can keep a call sign that left in one role and returned in another. `RoleGroupExactly`
  says who is in a role group after any history; `StaleRole` shows the stale entry.
- Clearing a public message misrenders in two cases: when the map holds it as cleared and its row already
  shows that (`ClearedRowStays`), and when the client, holding other messages, never had it and it would
  sort behind them all (`ClearedStrangerTakesARow`). `HandlerIsFaithfulExactly` is the exact statement.
  The first case needs a cleared message in the map. The history holds uncleared messages only
  (`docs/chat-system.md:75`), and as long as the server's answers do too, the map never gets one
  (`MapStaysUncleared`), so the second case is the one that is left (`OnlyStrangersMislead`).
- `trimUrlEnd` is not idempotent: `TrimTwice` says for which texts a second trim cuts more, and
  `http://a.)` is one.
- The PNG walk compares four bytes decoded as ASCII, which drops each byte's high bit. On well-formed
  chunks (types are ASCII letters) that makes no difference.

## Standing assumptions

Visible pane ids are distinct and have rectangles of positive size on integer coordinates, and minimum
sizes are at least 1; a drag's request is any finite real or not finite, a drop's points are any reals.
Call signs are unique and in upper case within a snapshot; `toUpperCase` itself is modelled on the letters
a to z. Messages in a map have distinct ids.
`localeCompare` is any strict total order on strings, given as an injective ranking. `pushOnce`, the
coalesced operation, the URL pattern's matches and the URL validity test are parameters.

## Model

| member | source | states |
|---|---|---|
| LoggerGrid.OverlapIsSharedCell | client/src/public/js/lib/loggerGrid.ts:8-10 | Two rectangles overlap exactly when some grid cell lies in both |
| LoggerGrid.LayoutIsCollisionFree | client/src/public/js/lib/loggerGrid.ts:12-25 | The nested loops answer true exactly when every listed pane exists and no two listed panes overlap |
| LoggerGrid.CollisionFreeIsDisjoint | client/src/public/js/lib/loggerGrid.ts:12-25 | For distinct ids the index-wise test is disjointness of the set of panes |
| LoggerGrid.ReplaceLoggerGridItem | client/src/public/js/lib/loggerGrid.ts:27-39 | Puts one pane elsewhere, or refuses for a missing pane or a collision |
| LoggerGrid.SwapTargets | client/src/public/js/lib/loggerGrid.ts:59-65 | The targets are exactly the other visible, present panes of which at least half of the smaller area is covered |
| LoggerGrid.SwapLoggerGridItemAtPosition | client/src/public/js/lib/loggerGrid.ts:47-81 | The method computes the swap of the specification, with all its refusals |
| LoggerGrid.SwapExactly | client/src/public/js/lib/loggerGrid.ts:47-81 | A swap happens if and only if one other visible pane, and no more, is substantially covered and the exchanged corners fit the grid without collision; sizes and all other panes are kept |
| GridCells.CoversHalfExactly | client/src/public/js/lib/loggerGrid.ts:41-65 | A pane substantially covers another exactly when they share at least half of the cells of one of the two |
| GridCells.WithinIsCells | client/src/public/js/lib/loggerGrid.ts:73-75 | A rectangle is within bounds exactly when each of its cells is a cell of the grid |
| GridSearch.CompareIsRankOrder | client/src/public/js/lib/loggerGrid.ts:105-116 | The comparator is the lexicographic order of (distance to target, distance to prior, vertical offset, horizontal offset, y, x) and ties only on equal positions |
| GridSearch.BetterInFull | client/src/public/js/lib/loggerGrid.ts:105-116 | The order in plain coordinates: nearer to the target, nearer to the prior place, in the nearer row, in the nearer column, then upper, then left |
| GridSearch.ClampIsNearest | client/src/public/js/lib/loggerGrid.ts:92-94 | Each coordinate of the target is the in-bounds integer nearest to that coordinate of the request |
| GridSearch.SortPositions | client/src/public/js/lib/loggerGrid.ts:105-116 | The sorted positions are a permutation in that order |
| GridSearch.AllPositions | client/src/public/js/lib/loggerGrid.ts:101-104 | The double loop lists exactly the in-bounds positions |
| GridSearch.FindLoggerGridItemPosition | client/src/public/js/lib/loggerGrid.ts:83-123 | The search returns the swap if there is one, else the nearest free position said without a search |
| GridSearch.NearestFreeIsUnique | client/src/public/js/lib/loggerGrid.ts:105-121 | There is at most one best free position |
| GridSearch.FirstFreeIsNearest | client/src/public/js/lib/loggerGrid.ts:118-121 | The first free position of the sorted list beats every other free position |
| GridSearch.FindPositionIsOptimal | client/src/public/js/lib/loggerGrid.ts:83-123 | Without a swap the pane lands on the unique best free position, and the search fails exactly when no position is free |
| GridSearch.FreeDropStandsThere | client/src/public/js/lib/loggerGrid.ts:83-123 | Without a swap, a pane dropped where the nearest in-bounds cell is free stands on that cell and nothing else changes |
| GridSearch.FindPositionSucceeds | client/src/public/js/lib/loggerGrid.ts:83-123 | A pane standing legally in bounds always finds a place |
| PaneGraph.TakeFacing | client/src/public/js/lib/loggerSplitters.ts:33-39 | One turn of the component loop moves exactly the pending panes that face the current one |
| GridCells.FacesIsSharedCoordinate | client/src/public/js/lib/loggerSplitters.ts:33-36 | Two panes on a line face each other exactly when some coordinate along the line belongs to both |
| PaneGraph.GrowComponent | client/src/public/js/lib/loggerSplitters.ts:28-41 | The loop ends with exactly the connected component of the first pending pane, and the rest stays pending |
| PaneGraph.ComponentOfIsComponent | client/src/public/js/lib/loggerSplitters.ts:28-41 | What a pane reaches is a component, closed under facing |
| PaneGraph.ComponentsDisjoint | client/src/public/js/lib/loggerSplitters.ts:27-42 | Different components share no pane |
| PaneIds.BoundaryIdInjective | client/src/public/js/lib/loggerSplitters.ts:58 | For ids without separators the name determines the axis and both pane sets |
| PaneIds.SortIdsSorted | client/src/public/js/lib/loggerSplitters.ts:58 | The ids in a name are the same ids in the order of their characters |
| PaneIds.NameIgnoresOrder | client/src/public/js/lib/loggerSplitters.ts:58 | The name depends on which panes stand on each side, not on how they are listed |
| SharedBoundaries.CoversStretch | client/src/public/js/lib/loggerSplitters.ts:46-54 | The cursor walk answers as specified, with the early exit |
| BoundaryFacts.CoversIsTiling | client/src/public/js/lib/loggerSplitters.ts:46-54 | The walk succeeds exactly when the panes tile the stretch without gap, overlap or overhang |
| SharedBoundaries.ReportNext | client/src/public/js/lib/loggerSplitters.ts:27-58 | One turn of the pending loop takes out one whole component and reports it as specified |
| SharedBoundaries.DeriveSharedBoundaries | client/src/public/js/lib/loggerSplitters.ts:18-63 | The whole derivation terminates with the specified boundaries in the specified order |
| BoundaryFacts.DerivedExactly | client/src/public/js/lib/loggerSplitters.ts:18-60 | Sound and complete: a boundary is reported if and only if it is a component with both sides non-empty and tiling one stretch |
| DerivedOrder.DerivedInOrder | client/src/public/js/lib/loggerSplitters.ts:18-60 | Boundaries are reported once each, along x before along y, by whose position is met first among the visible panes' ends, then by whose first pane before the line is listed first |
| BoundaryFacts.OneBoundaryPerEdge | client/src/public/js/lib/loggerSplitters.ts:18-60 | Each pane edge lies on at most one reported boundary per axis |
| BoundaryFacts.BoundaryStretch | client/src/public/js/lib/loggerSplitters.ts:44-45 | A boundary's stretch is positive, and the panes before the line alone determine it, as do those after it |
| Splitters.ResizeSharedBoundary | client/src/public/js/lib/loggerSplitters.ts:73-87 | The in-place loops compute the specified resize, with all its refusals |
| Splitters.DerivedHasSides | client/src/public/js/lib/loggerSplitters.ts:65-71 | Every derived boundary has two non-empty, disjoint, visible sides, so its limits are defined |
| DragFacts.LimitsExactly | client/src/public/js/lib/loggerSplitters.ts:65-71 | A position is within the limits if and only if it leaves every pane on the boundary its minimum |
| DragFacts.NameMeansFirst | client/src/public/js/lib/loggerSplitters.ts:75 | The name of a drag means the first reported shared boundary that has it, if any has |
| DragFacts.DragRefusedExactly | client/src/public/js/lib/loggerSplitters.ts:73-78 | A drag is refused if and only if it asks for no number, no shared boundary has the name, or no position leaves every pane its minimum |
| DragFacts.DragLandsNearest | client/src/public/js/lib/loggerSplitters.ts:73-87 | The line moves to the position nearest to the request, the larger of two, among those that leave every pane its minimum, and no other edge moves |
| ResizeFacts.ResizeRefusesOnlyByGuard | client/src/public/js/lib/loggerSplitters.ts:73-87 | A resize returns nothing if and only if the request is not finite, no boundary has the name, or min exceeds max: the collision test never fails |
| ResizeFacts.ResizeMovesOneLine | client/src/public/js/lib/loggerSplitters.ts:77-84 | A resize moves the line of one derived boundary: a request inside the limits lands within half a cell, one at or beyond a limit lands on it |
| ResizeFacts.ResizeConserves | client/src/public/js/lib/loggerSplitters.ts:65-87 | The covered cells are unchanged, every pane on the boundary ends at or above its minimum along the axis, and no other pane moves |
| ResizeFacts.ResizeKeepsMinimums | client/src/public/js/lib/loggerSplitters.ts:65-87 | Minimums that held before hold after |
| SeamFacts.ShiftConservesCells | client/src/public/js/lib/loggerSplitters.ts:81-83 | Moving a line between two groups that tile its stretch leaves the union of cells as it was |
| SeamFacts.ShiftKeepsArrangement | client/src/public/js/lib/loggerSplitters.ts:81-85 | Moving such a line makes no two panes overlap |
| SeamFacts.ShiftTwice | client/src/public/js/lib/loggerSplitters.ts:81-83 | Two moves of a line are the second alone |
| SeamFacts.ShiftBack | client/src/public/js/lib/loggerSplitters.ts:81-83 | Moving a line back restores every pane |
| ResizeFacts.BoundarySurvives | client/src/public/js/lib/loggerSplitters.ts:16-87 | Wherever a boundary's line is moved, the same boundary is derived at the new position |
| ResizeFacts.ResizeKeepsItsBoundary | client/src/public/js/lib/loggerSplitters.ts:16-87 | After a resize the boundary is derivable with the same name, sides, stretch and limits, whatever the ids |
| ResizeFacts.NamesAreUnique | client/src/public/js/lib/loggerSplitters.ts:58 | With separator-free ids two derived boundaries never share a name |
| ResizeFacts.ResizedBoundaryIsFound | client/src/public/js/lib/loggerSplitters.ts:75-76 | With separator-free ids the name finds the moved boundary again |
| ResizeFacts.ResizeIsPathIndependent | client/src/public/js/lib/loggerSplitters.ts:73-87 | With separator-free ids two resizes in a row equal the last one alone, refusals included |
| ResizeFacts.ResizeBackRestores | client/src/public/js/lib/loggerSplitters.ts:73-87 | With separator-free ids resizing back to the old position, where allowed, restores the layout exactly |
| ResizeFacts.StandsWithinLimits | client/src/public/js/lib/loggerSplitters.ts:65-71 | Where every pane has its minimum, every boundary's position is within its limits, so every drag can be undone |
| BoundaryNames.PathIndependentExactly | client/src/public/js/lib/loggerSplitters.ts:73-87 | For any ids: the second resize equals itself alone if and only if the name still finds the moved boundary, or neither line would move |
| BoundaryNames.RestoresExactly | client/src/public/js/lib/loggerSplitters.ts:73-87 | For any ids: resizing back restores the layout under exactly that condition |
| BoundaryNames.NameMovesAnotherLine | client/src/public/js/lib/loggerSplitters.ts:58-76 | A layout with ids containing a colon in which the second of two equal drags moves another splitter |
| Splitters.VacatePane | client/src/public/js/lib/loggerSplitters.ts:93-107 | The healing loop computes the specified panes after the moving pane has left |
| Splitters.DockAtEdge | client/src/public/js/lib/loggerSplitters.ts:89-124 | The method computes the specified dock, with all its refusals |
| DockOrder.FormerExactly | client/src/public/js/lib/loggerSplitters.ts:94-96 | The line that is healed is one the moving pane has a side of to itself: along x if there is any, and of two the one met first among the visible panes' ends |
| DockOrder.RoomExactly | client/src/public/js/lib/loggerSplitters.ts:112-113 | There is room exactly when the healed target can be parted so that both panes have their minimum |
| DockOrder.DockExactly | client/src/public/js/lib/loggerSplitters.ts:89-124 | The whole outcome on the panes: when a dock is refused, how the healed target is parted, which neighbours reach over the vacated place, and that nothing else changes |
| DockFacts.VacatedFacts | client/src/public/js/lib/loggerSplitters.ts:91-107 | Healing keeps the other panes disjoint, shrinks none, spares hidden ones, and covers the hole exactly when the moving pane had a side of a boundary to itself |
| DockFacts.CutIsFairest | client/src/public/js/lib/loggerSplitters.ts:116 | The cut leaves both minimums, no allowed cut is nearer to the middle, and of two it is the larger |
| DockFacts.DockRefusesOnlyByGuard | client/src/public/js/lib/loggerSplitters.ts:89-124 | A dock returns nothing exactly for equal, invisible or too large panes: the collision test never fails |
| DockFacts.DockPartitionsTarget | client/src/public/js/lib/loggerSplitters.ts:114-121 | Moving and target exactly partition the healed target rectangle, both at least their minimum, the moving pane at the named edge |
| DockFacts.DockConserves | client/src/public/js/lib/loggerSplitters.ts:89-124 | The covered cells are unchanged if a former boundary existed, and lose exactly the moving pane's old cells otherwise |
| DockFacts.DockMovesOnlyNeighbours | client/src/public/js/lib/loggerSplitters.ts:98-107 | Any other pane changes only if it was across the former boundary, and then it grows into the hole and nowhere else |
| DockFacts.DockKeepsMinimums | client/src/public/js/lib/loggerSplitters.ts:89-124 | Minimums that held before hold after |
| LayoutRuns.RunKeepsGood | client/src/public/js/lib/loggerSplitters.ts:73-124 | Over every run of drags, docks and drops the layout stays collision-free, inside the grid and at or above minimums, and hidden panes are never touched |
| LayoutRuns.DropKeepsGood | client/src/public/js/lib/loggerGrid.ts:47-123 | A drop, by swap or search, keeps all three facts |
| LayoutRuns.DragsConserveCells | client/src/public/js/lib/loggerSplitters.ts:73-87 | Any run of drags leaves the covered cells exactly as they were |
| LayoutRuns.DropSucceeds | client/src/public/js/byView/liveNet/ncoLogger.js:4353 | With the bounds the dashboard passes, a drop of a visible pane on a good layout never fails |
| RealtimeClients.RealtimeClients.Push | server/src/lib/realtimeClients.ts:178-212 | The synchronous part of push is one step: join and mark the state, or create it |
| RealtimeClients.RealtimeClients.StartPushOnce | server/src/lib/realtimeClients.ts:197-201 | The top of the loop reads the flag, clears both fields and hands the flag to the run |
| RealtimeClients.RealtimeClients.PushOnceCompletes | server/src/lib/realtimeClients.ts:202-206 | The last loop test and the deletion of the state are one step |
| RealtimeClients.RealtimeClients.PushOnceRejects | server/src/lib/realtimeClients.ts:203-206 | A throw deletes the state in the same step |
| PushRuns.RunKeepsInv | server/src/lib/realtimeClients.ts:178-212 | The invariant that ties states to history holds after every sequence of actions |
| PushFacts.RunsNeverOverlap | server/src/lib/realtimeClients.ts:178-212 | Between two runs for one net the first has ended |
| PushFacts.FlagIsConjunction | server/src/lib/realtimeClients.ts:183-204 | A run's cached-response flag is exactly the conjunction of the flags of the calls since the previous run began, or since the state was created |
| PushFacts.ResolvedMeansServed | server/src/lib/realtimeClients.ts:178-212 | When a call's promise resolves, a run began after the call and finished before, and it was uncached if the call asked for that |
| PushFacts.RejectedMeansFailed | server/src/lib/realtimeClients.ts:195-207 | A promise rejects exactly when one of its runs failed |
| PushSettles.PromisesAreAccounted | server/src/lib/realtimeClients.ts:178-212 | In every reachable state each promise handed out is carried by a live state, about to settle, or settled: exactly one of the three |
| PushSettles.CallIsPending | server/src/lib/realtimeClients.ts:178-212 | A call's promise has settled, can settle at once, or is carried by the state of the call's own net |
| PushSettles.SettlesOnce | server/src/lib/realtimeClients.ts:195-207 | No promise settles twice |
| PushSettles.FailureRejects | server/src/lib/realtimeClients.ts:195-207 | When a run fails the shared promise rejects, with nothing in between |
| PushSettles.LastRunResolves | server/src/lib/realtimeClients.ts:195-207 | When the last run finishes the shared promise resolves, with nothing in between |
| PushFacts.RunsWithinCalls | server/src/lib/realtimeClients.ts:178-212 | There are never more runs for a net than calls |
| PushFacts.UnservedCallIsOwed | server/src/lib/realtimeClients.ts:183-202 | A call no run has begun for is still owed one by a live state, unless its promise failed |
| PushNets.DrainsWithinTwoRuns | server/src/lib/realtimeClients.ts:195-207 | From any state, over any actions without a call for a net, the net is gone after its drain has begun and two of its runs have completed |
| PushNets.NetsAreIndependent | server/src/lib/realtimeClients.ts:183-210 | In any interleaving a net's fields and history, up to the numbering of promises, are those of a run of that net's actions alone |
| RequestCoordination.CoalescedAsyncRequest.MakeRequest | client/src/public/js/lib/requestCoordination.ts:30-44 | The synchronous part of request is one step: join the drain, or begin one |
| RequestCoordination.CoalescedAsyncRequest.OperationCompletes | client/src/public/js/lib/requestCoordination.ts:58-64 | The last loop test does not clear inFlight |
| RequestCoordination.CoalescedAsyncRequest.FinallyCallback | client/src/public/js/lib/requestCoordination.ts:38-42 | Only the later finally callback clears it |
| CoalescedRuns.CountersAgree | client/src/public/js/lib/requestCoordination.ts:30-64 | requests = coalesced + drains begun, and executions never exceed requests, in every reachable state |
| CoalescedRuns.ExecutionsNeverOverlap | client/src/public/js/lib/requestCoordination.ts:58-64 | Between two executions the first has ended |
| CoalescedRuns.UnservedRequestIsOwed | client/src/public/js/lib/requestCoordination.ts:30-64 | In every reachable state a request outside the window that nothing has executed after belongs to a drain that threw, or to the live drain, whose next step begins an execution for it |
| CoalescedRuns.RejectedMeansFailed | client/src/public/js/lib/requestCoordination.ts:58-64 | A promise rejects exactly when one of its executions failed |
| CoalescedSettles.PromisesAreAccounted | client/src/public/js/lib/requestCoordination.ts:30-44 | In every reachable state each drain's promise is in flight, about to settle, or settled: exactly one of the three |
| CoalescedSettles.RequestIsPending | client/src/public/js/lib/requestCoordination.ts:30-44 | A request's promise has settled, can settle at once, or is the one in flight |
| CoalescedSettles.EndedDrainSettles | client/src/public/js/lib/requestCoordination.ts:38-42 | Once a drain has ended, the finally callback and the settlement tell the callers how |
| CoalescedRuns.ServedUnlessInWindow | client/src/public/js/lib/requestCoordination.ts:30-64 | When a request's promise resolves, an execution began after it if and only if it did not arrive between the last loop test and the finally callback |
| CoalescedRuns.NothingAfterEnd | client/src/public/js/lib/requestCoordination.ts:58-64 | After its drain's last test a promise executes no more |
| CoalescedRuns.WindowLosesARequest | client/src/public/js/lib/requestCoordination.ts:32-42 | A run in which a request is coalesced, resolved, and never executed for |
| Stores.StateGroup.Add | client/src/public/js/lib/stores.ts:486-489 | Adding upper-cases the call sign, sets newData and keeps the insertion order of members already there |
| Stores.StateGroup.Delete | client/src/public/js/lib/stores.ts:491-497 | Deleting upper-cases the call sign, tells whether it was there and sets newData only then |
| StationGroups.UpperCaseExactly | client/src/public/js/lib/stores.ts:486-494 | Upper-casing turns each small letter into its capital and leaves everything else |
| Stores.StateGroupCollection.SetAllNewData | client/src/public/js/lib/stores.ts:529-531 | The setter tells every group |
| Stores.StationIndexer.ProcessPerStationDiffs | client/src/public/js/lib/stores.ts:615-639 | The walk runs the four hooks on each station in order and notes exactly the changed properties |
| Stores.StationIndexer.ProcessAggregateDiffs | client/src/public/js/lib/stores.ts:641-687 | The aggregate pass replaces attendees and drops departed checked-in stations |
| Stores.StationIndexer.ProcessStations | client/src/public/js/lib/stores.ts:689-817 | Processing a snapshot refines the value-level step, or refuses before changing anything |
| StationFacts.IndexesAreLastTwo | client/src/public/js/lib/stores.ts:599-613 | The indexer holds the last two snapshots, and firstRun says that there has been only one |
| StationFacts.HandUpIsLastSeen | client/src/public/js/lib/stores.ts:733-741 | After every history hand-up is exactly the call signs last seen with a hand up |
| StationFacts.CheckedOutIsLastSeen | client/src/public/js/lib/stores.ts:757-766 | After every history checked-out is exactly the call signs last seen checked out |
| StationFacts.CheckedInEverExactly | client/src/public/js/lib/stores.ts:677-684 | checked-in-ever is the present stations with a boolean state plus the departed ones last seen checked out |
| StationFacts.AttendeesAreLastSnapshot | client/src/public/js/lib/stores.ts:643-644 | attendees is the ordered list of the last snapshot's call signs |
| StationOrder.GroupOrderExactly | client/src/public/js/lib/stores.ts:483-498 | In every other group those who stay after a snapshot keep their order, and those who join follow in the order of the snapshot |
| StationFacts.RoleGroupExactly | client/src/public/js/lib/stores.ts:768-811 | Who is in a role group after any history, if and only if |
| StationFacts.PresentRoleIsListed | client/src/public/js/lib/stores.ts:768-811 | A present logger, relay or net control is in its role's group |
| StationFacts.LoyalRolesAreExclusive | client/src/public/js/lib/stores.ts:768-811 | and in no other, along histories where a call sign that left in such a role only returns in it |
| StationFacts.StaleRole | client/src/public/js/lib/stores.ts:768-811 | A call sign that leaves in one role and returns in another is in both groups |
| StationFacts.DiffIndexExactly | client/src/public/js/lib/stores.ts:615-639 | A station is listed with precisely the properties of interest that differ, or all of them if new |
| StationNews.ChangesAreAnnounced | client/src/public/js/lib/stores.ts:483-498 | Any change in a group's members or their order sets its newData |
| StationNews.AttendeesNewDataExactly | client/src/public/js/lib/stores.ts:650-675 | After the first run attendees has new data exactly when the ordered call-sign list changed |
| StationNews.NewDataExactly | client/src/public/js/lib/stores.ts:721-811 | After the first run, for every group but attendees: newData is set exactly when a station's record is news for the group (hand, check-in state or role), or a checked-in station left |
| ChatState.ReconcileChatMessages | client/src/public/js/lib/chatState.ts:80-89 | The loop merges the batch and counts the ids that were new |
| ChatState.ReconcileLookup | client/src/public/js/lib/chatState.ts:80-89 | Afterwards each id holds its last incoming message, or what it held before |
| ChatState.ReconcileChatSnapshot | client/src/public/js/lib/chatState.ts:91-100 | Drops the known ids the snapshot no longer has, then merges it and counts the ids that were new after the deletions |
| ChatState.SnapshotLookup | client/src/public/js/lib/chatState.ts:91-100 | Afterwards each id holds the snapshot's message, or its old one unless it was known before the request |
| ChatState.SortedIs | client/src/public/js/lib/chatState.ts:102-106 | The sorted order is the one ascending list of the map's messages |
| ChatState.SortIsOldestFirst | client/src/public/js/lib/chatState.ts:102-106 | The sorted list holds each message once, the oldest first, by time and then by id |
| ChatState.IsLatestChatMessage | client/src/public/js/lib/chatState.ts:119-124 | The early-exit scan: no message with another id was sent later, or at the same time with a larger id |
| ChatState.TrimOldestChatMessages | client/src/public/js/lib/chatState.ts:126-138 | The repeated minimum scan terminates with the specified map and removed ids |
| ChatState.TrimSplitsSort | client/src/public/js/lib/chatState.ts:126-138 | sort(before) is the removed messages in order followed by sort(after), and the size is the limit or less |
| ChatState.TrimRemovesOldest | client/src/public/js/lib/chatState.ts:126-138 | Everything removed was sent before everything kept |
| ChatView.LocalChat.Render | client/src/public/js/lib/chat.ts:1481-1500 | The rebuilt rows, kept or new, are the sorted map |
| ChatView.RenderedIsCurrent | client/src/public/js/lib/chat.ts:1494-1499 | A full render shows each message as it is now, with the draft and reply preview it has now |
| ChatView.LocalChat.RenderLatestAppend | client/src/public/js/lib/chat.ts:1513-1535 | The append path computes the specified rows and answer |
| ChatView.LocalChat.OnPublicMessage | client/src/public/js/lib/chat.ts:1038-1044 | The public branch: reconcile, trim, delete if cleared, append or render |
| ChatView.AppendRefinesRender | client/src/public/js/lib/chat.ts:1513-1535 | From rows that are the sorted map, with the message in the map after reconcile and trim, a successful append leaves the rows the new sorted map |
| ChatView.HandlerIsFaithfulExactly | client/src/public/js/lib/chat.ts:1038-1044 | The handler keeps the rows equal to the sorted map if and only if the event is not one of the two mishandled ones |
| ChatView.ClearedRowStays | client/src/public/js/lib/chat.ts:1517 | A cleared message that is in the map and on display keeps its row after it is cleared again |
| ChatView.OnlyStrangersMislead | client/src/public/js/lib/chat.ts:1038-1044 | While the map holds no cleared message, the mishandled events are exactly the cleared strangers that sort last |
| ChatView.MapStaysUncleared | client/src/public/js/lib/chat.ts:1038-1041 | If histories and answers hold no cleared message, the map never does |
| ChatView.ClearedStrangerTakesARow | client/src/public/js/lib/chat.ts:1038-1044 | Clearing a message the client never had can replace the shown message |
| ChatView.RunStaysFaithful | client/src/public/js/lib/chat.ts:928-935 | Over every run of admitted events, answers to the client's own requests, history loads and clears the rows are the sorted map, within the limit |
| ChatText.TrimUrlEnd | client/src/public/js/lib/chatText.ts:13-26 | The two loops compute the specified trim |
| ChatText.TrimShape | client/src/public/js/lib/chatText.ts:13-26 | What is left is a prefix; what is cut is closing delimiters, each spare where it stood, followed by all the trailing punctuation |
| ChatText.SpareExactly | client/src/public/js/lib/chatText.ts:16-24 | A closer is spare exactly when the text has more of it than of its opener |
| ChatText.BalancedIsKept | client/src/public/js/lib/chatText.ts:13-26 | A link without trailing punctuation whose brackets balance keeps all of them |
| ChatText.TrimTwice | client/src/public/js/lib/chatText.ts:13-26 | Trimming again cuts more if and only if the text has punctuation, then one or more spare closers, then nothing but trailing punctuation |
| ChatText.TrimIsNotIdempotent | client/src/public/js/lib/chatText.ts:13-26 | `http://a.)` trims to `http://a.`, which trims to `http://a` |
| ChatText.ChatTextParts | client/src/public/js/lib/chatText.ts:28-49 | The loop computes the specified parts |
| ChatText.PartsAreLossless | client/src/public/js/lib/chatText.ts:28-49 | The part values concatenate to the message |
| ChatText.PartsAreNormal | client/src/public/js/lib/chatText.ts:28-49 | No two text parts are adjacent and no part is empty unless the message is |
| ChatText.LinksAreTheValidMatches | client/src/public/js/lib/chatText.ts:31-46 | The links are exactly the valid trimmed matches, each starting where its match starts |
| ChatImage.WalkChunks | server/src/lib/chatImage.ts:46-50 | The loop terminates on any buffer, reads nothing outside it and stops where specified |
| ChatImage.ReadsBack | server/src/lib/chatImage.ts:47 | Reading a big-endian 32-bit length inverts writing it |
| ChatImage.WalkRejectsExactlyAnimated | server/src/lib/chatImage.ts:45-51 | On a signature followed by well-formed chunks the walk stops on exactly the chunk boundaries, up to the first acTL chunk, and rejects exactly when there is one |

## Left out

- The DOM, mouse, touch, focus, scroll and CSS work of the widgets, and everything Express, SSE, EventSource, MongoDB, fetch and sharp do.
- Fractional coordinates: panes stand on integers, as the dashboard's normalised layouts do. A drag's request and a drop's points are reals; a drop point that is not finite is left out.
- Layouts with a visible id that has no rectangle, in the splitter derivation: the code asserts there is one and would throw.
- `Array.prototype.sort` is modelled by stable insertion sorts; for the grid search and the chat the sorted list is proved to be the only one.
- Integer overflow and 64-bit floating-point rounding: coordinates, counters and lengths are unbounded.
- Swap reversibility: the half-area test does not make a swap undoable, so nothing is claimed.
- RealtimeClients.RealtimeClients.Push: does not model the rejection of an id that is not a string, which the type rules out here; nothing is claimed about what is sent after `close`.
- Fairness: a run that has started may stay unfinished for ever. What is proved is what resolved and rejected promises mean and what a state still owes.
- ChatView.RunStaysFaithful: speaks of the public conversation while it is shown; direct conversations and switching between them are not modelled.
- ChatView.HandlerIsFaithfulExactly: says which message each row shows and in what order. What a row shows besides its message (an edit draft, a reply preview, which may go stale after a trim) is only part of its key; the identity of row elements and the JSON text of the key are left out.
- Upper-casing of letters other than a to z.
- Stores.StationIndexer.ProcessStations: asks that a snapshot's call signs are unique and in upper case; whether the client's own call sign is known is a parameter, not the lookup in the page or the presence promise.
- ChatText.ChatTextParts: the URL pattern and `new URL` are parameters (ordered, non-overlapping matches; any validity test). `PartsAreNormal` assumes the empty text is not a valid URL.
- ChatImage.WalkChunks: the type detection, size limits, the processing counter and the re-encoding around the walk are left out.
- `Looper` and the in-flight window timers, the one-field gates, type guards, avatar policy, logger tags, responsive breakpoints and database backup: single-branch facts or I/O that would only add easy members.
- Emoji segmentation, regular-expression matching and locale collation themselves.
