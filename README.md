# game-proj engine core, modelled in Dafny

This project models the engine core of the Go game `game-proj`:

- **Collider registry.** One chunked spatial hash per tag, plus the AllColliders layer, in
  `internal/colliders/colliderMap.go`. Each maps a cell to the list of colliders touching it.
  The registry has operations to add a collider, remove it, and re-index it after a move.
- **Swept `MoveCollider`** (`internal/colliders/collider.go`). A collider walks toward its
  target in clamped steps.
  - At each step it tests its leading edges against the layers of its Block tags, and stops at
    the previous position if anything is hit.
  - Otherwise it tests them against the AllColliders layer. It diffs what it touches against
    what it touched one step earlier, and calls the enter and exit callbacks.
  - When the move ends, the registry re-indexes the collider.
- **Input manager** (`internal/inputs`). GLFW callbacks queue key actions. `dirtyPop` turns them
  into Pressed/Inactive key states. `Notify` dispatches them to weakly held listeners and prunes
  the reclaimed ones.
- **Flag store** (`internal/gameState`). It is double-buffered: writes become visible only after
  `UpdateCurrentContext`.
- **Global scene** (`internal/scenes/globalScene.go`). Lists of sprites, game objects and audio
  players, and the flag queries that request a scene switch or a close.
- **Text layout** (`internal/text/text.go`). The row/column layout of `TextToSprites`, and the
  glyph table of the 7×6 font atlas.
- **Helpers.** `Clamp`, `AnyOverlap`, `MouseButtonToKey`, and the behaviour of `slices.DeleteFunc`
  that the code relies on.

How the source is represented:

- **Form.**
  - Objects whose fields the code updates are classes whose methods change those fields:
    `InputManager`, `GameState`, `GlobalScene`, and `CollisionWorld` (the registry).
  - Each method's `ensures` ties the new state to a specification function of the old state.
  - Loops are `while`/`for` loops with invariants.
  - The pure parts are functions, with lemmas about them.
- **Identities.** Go pointers are natural-number identities:
  - a collider is a `ColliderId` into the registry's `heap`, and `equals` compares heap entries;
  - a listener behind a `weak.Pointer` is a `ListenerId`, and a set `collected` names the
    listeners the garbage collector has reclaimed;
  - sprites, audio players and game objects are identities as well.
- **Coordinates** are exact reals. Go's `int(x)` truncation and its truncating integer `/` are
  written out (`Trunc`, `GoDiv`).
- **Step vector.** The move's step `(dx, dy)` is a parameter: `dx > 0` exactly when the target
  differs on x, and likewise for y. It stands in for the square-root derivation.
- **Callbacks.**
  - The collision callbacks become `Event`s appended to the registry's log, as
    (receiver, argument, Enter|Exit).
  - `OnKeyAction` calls become `Delivery` records.
- **Concurrency.** Goroutine fan-out and channels become a sequential scan in cell order, followed
  by the same de-duplication the code applies when it drains the channel.

## Model

| member | source | states |
|---|---|---|
| ColliderGeometry.Equals | internal/colliders/collider.go:43-64 | Definition of `equals`: the same center, width and height, the same tag sequence in the same order, and the same parent. Block and Ignore are not compared |
| ColliderGeometry.EqualsIsEquivalence | internal/colliders/collider.go:43-64 | `equals` compares center, width, height, the tag sequence in order, and the parent. It is reflexive, symmetric and transitive, and it ignores Block and Ignore |
| ColliderGeometry.MovedIsNotEqual | internal/colliders/collider.go:48-50 | A collider at a different center is not `equals` to its old self |
| ColliderGeometry.Trunc | internal/colliders/colliderMap.go:32 | `int(x)` truncates toward zero: the result is within one of x, on the side of zero |
| ColliderGeometry.TruncMonotone | internal/colliders/colliderMap.go:32 | Truncation is monotone |
| ColliderGeometry.GoDiv | internal/colliders/colliderMap.go:32 | Go's `/` by a positive cell size: the quotient has the sign of the dividend |
| ColliderGeometry.GoDivTruncates | internal/colliders/colliderMap.go:32 | The quotient rounds toward zero: the remainder has the dividend's sign and is smaller than the divisor in size |
| ColliderGeometry.GoDivMonotone | internal/colliders/colliderMap.go:32 | Truncating division by a positive size is monotone |
| ColliderGeometry.GoDivZeroCell | internal/colliders/colliderMap.go:32 | Every coordinate strictly between -size and size lands in cell 0, so cell 0 is twice as wide as the others |
| ColliderGeometry.CellOf | internal/colliders/colliderMap.go:31-33 | Definition of worldCoordsToColliderCoords: each coordinate is truncated with `Trunc`, then divided by the layer's cell size with `GoDiv` |
| ColliderGeometry.CellOfMonotone | internal/colliders/colliderMap.go:31-33 | A point further right or up never maps to a cell further left or down |
| ColliderGeometry.CellOfAxes | internal/colliders/colliderMap.go:41-43 | A corner's cell takes its column from the corner's x and its row from its y |
| ColliderGeometry.Column | internal/colliders/colliderMap.go:50-56 | The cells one pass of the inner `dy` loop writes, bottom to top; `ColumnMembers` states which they are |
| ColliderGeometry.Grid | internal/colliders/colliderMap.go:44-58 | The cells the nested loops write, column by column from the left; `GridMembers`, `GridSize` and `GridNoDup` state which, how many, and that none repeats |
| ColliderGeometry.ColumnMembers | internal/colliders/colliderMap.go:51-57 | The inner loop yields `ny` cells, exactly those of one column from row `y0` upward |
| ColliderGeometry.GridMembers | internal/colliders/colliderMap.go:50-58 | The nested loops yield exactly the cells of the block |
| ColliderGeometry.GridSize | internal/colliders/colliderMap.go:45-58 | The nested loops fill all `nx * ny` slots of the slice they allocate |
| ColliderGeometry.GridNoDup | internal/colliders/colliderMap.go:50-58 | No cell is produced twice |
| ColliderGeometry.GridRectangle | internal/colliders/colliderMap.go:45-58 | The grid between two corner cells holds exactly the cells between them, each once, `(Δx+1)(Δy+1)` of them |
| ColliderGeometry.Footprint | internal/colliders/colliderMap.go:35-61 | Definition of getColliderCoords: the corner cells of the box, then the grid from the bottom-left cell, `topRight.x - topLeft.x + 1` columns wide and `topLeft.y - bottomLeft.y + 1` rows high. getPrevColliderCoords (lines 63-91) is the same function at the previous center |
| ColliderGeometry.FootprintIsGrid | internal/colliders/colliderMap.go:35-61 | getColliderCoords is the grid spanned by the bottom-left and top-right corner cells, and those corners are ordered |
| ColliderGeometry.FootprintIsRectangle | internal/colliders/colliderMap.go:35-61 | The footprint is every cell of the inclusive rectangle between the corner cells, with no duplicates, and has `(Δx+1)(Δy+1)` cells |
| ColliderGeometry.FootprintNoDup | internal/colliders/colliderMap.go:35-61 | No cell occurs twice in a footprint |
| ColliderGeometry.FootprintHoldsCenter | internal/colliders/colliderMap.go:35-61 | The cell of the collider's center is always in its footprint |
| ColliderGeometry.HorizontalEdgeIds | internal/colliders/collider.go:348-357 | The inclusive run of cells on the left end's row, from the left end's column to the right end's, listed left to right: entry i is the cell i columns right of the left end |
| ColliderGeometry.VerticalEdgeIds | internal/colliders/collider.go:359-368 | The inclusive run of cells on the lower end's column, from the lower end's row to the upper end's, listed bottom to top: entry i is the cell i rows above the lower end |
| ColliderGeometry.VerticalEdgeIntersec | internal/colliders/collider.go:399-425 | `verticalEdgeIntersec`'s three comparisons: outside the x-span or the y-span reports nothing, and otherwise the segment must reach the left or the right side; `VerticalEdgeIntersecMeaning` states what it decides |
| ColliderGeometry.HorizontalEdgeIntersec | internal/colliders/collider.go:370-397 | `horizontalEdgeIntersec`'s comparisons, with the axes swapped; `HorizontalEdgeIntersecMeaning` states what it decides |
| ColliderGeometry.VerticalEdgeIntersecMeaning | internal/colliders/collider.go:399-425 | The test reports iff the segment's y lies in the collider's closed y-span and the segment contains the x of the left or the right side, so a segment strictly inside reports nothing |
| ColliderGeometry.HorizontalEdgeIntersecMeaning | internal/colliders/collider.go:370-397 | The y/x mirror: it reports iff the segment's x lies in the x-span and the segment contains the y of the bottom or the top side |
| ColliderMaps.Appended | internal/colliders/colliderMap.go:211-213 | The append loop keeps the layer's cell size |
| ColliderMaps.Deleted | internal/colliders/colliderMap.go:146-151 | The delete loop keeps the layer's cell size |
| ColliderMaps.AppendedAt | internal/colliders/colliderMap.go:211-213 | Over distinct cells, each cell of the run gains the collider exactly once at its end, and every other cell is unchanged |
| ColliderMaps.DeletedAt | internal/colliders/colliderMap.go:146-151 | Over distinct cells, each cell of the run loses exactly its doomed entries (`DeleteFunc`, so survivors keep their order), and every other cell is unchanged |
| ColliderMaps.EqualIds | internal/colliders/colliderMap.go:147-150 | The ids the deletion predicate drops: exactly the registered colliders `equals` to the one processed |
| ColliderMaps.ApplyOp | internal/colliders/colliderMap.go:101-135 | Each of the insert, erase, move and as-written AllColliders re-index passes keeps the layer's cell size |
| ColliderMaps.InsertAt | internal/colliders/colliderMap.go:210-213 | Insert, cell by cell: footprint cells gain the collider at the end, and other cells are unchanged |
| ColliderMaps.EraseAt | internal/colliders/colliderMap.go:145-151 | Erase, cell by cell: footprint cells lose every entry equal to the collider, and other cells are unchanged |
| ColliderMaps.MoveAt | internal/colliders/colliderMap.go:101-114 | Move, cell by cell: previous-footprint cells lose the equal entries, then current-footprint cells gain the collider |
| ColliderMaps.ReinsertAt | internal/colliders/colliderMap.go:121-135 | The AllColliders pass as written: previous-footprint cells lose the equal entries and then get the collider back, and no other cell changes |
| ColliderMaps.ApplyPerTag | internal/colliders/colliderMap.go:205-214 | The tag loop keeps the set of layers, and every cell size stays positive |
| ColliderMaps.TagStep | internal/colliders/colliderMap.go:206-209 | One turn of the tag loop keeps the set of layers and positive cell sizes |
| ColliderMaps.ApplyKeepsChunked | internal/colliders/colliderMap.go:204-224 | Applying a pass to one layer keeps every cell size positive |
| ColliderMaps.ApplyPerTagSnoc | internal/colliders/colliderMap.go:205-214 | The tag loop after one more tag is one more `TagStep` |
| ColliderMaps.MapsAfter | internal/colliders/colliderMap.go:204-224 | A whole function (the tag loop, then AllColliders) keeps the set of layers and positive cell sizes |
| ColliderMaps.ApplyPerTagAt | internal/colliders/colliderMap.go:205-214 | With distinct tags, a layer whose tag is among the collider's tags gets the pass exactly once, and every other layer is unchanged |
| ColliderMaps.MapsAfterAt | internal/colliders/colliderMap.go:204-224 | The AllColliders layer gets its own pass, each tag layer gets the tag pass, and every other layer is untouched |
| ColliderMaps.FootprintSameChunks | internal/colliders/colliderMap.go:31-33 | Layers with equal cell sizes agree on every footprint, so a pass that changes cells does not move the footprint |
| ColliderMaps.AddThenRemoveRestores | internal/colliders/colliderMap.go:139-165 | AddColliderToMaps then removeColliderFromMaps, erasing a set of ids that includes the new one, restores every cell of every layer that held none of those ids |
| ColliderMaps.RemoveClearsFootprint | internal/colliders/colliderMap.go:139-165 | After removeColliderFromMaps, no footprint cell of a layer the collider is indexed in holds an erased id |
| ColliderMaps.UpdateLeavesAllCollidersStale | internal/colliders/colliderMap.go:116-135 | As written, each previous-footprint cell of AllColliders loses the equal entries and gets the collider back at its end. Every other cell, the new footprint's included, is left exactly as it was |
| ColliderMaps.UpdateCorrectedReindexes | internal/colliders/colliderMap.go:94-115 | With AllColliders handled like the tag layers, each cell of a touched layer becomes its old list, with the ids equal to the collider removed when the cell is in the previous footprint, followed by the collider when the cell is in the new footprint. So each new-footprint cell ends with the collider, and holds it exactly once when it was not left behind elsewhere in the cell. Previous-footprint cells outside the new footprint hold nothing equal to it |
| ColliderMaps.CollisionWorld.constructor | internal/colliders/colliderMap.go:180-201 | The registry starts with exactly the AllColliders and EnvironmentCollider layers, both empty and 64×64 |
| ColliderMaps.CollisionWorld.NewCollider | internal/colliders/collider.go:22-41 | A new collider gets a fresh identity; nothing else changes |
| ColliderMaps.CollisionWorld.AppendToCells | internal/colliders/colliderMap.go:211-213 | The append loop does to the layer exactly what `Appended` describes |
| ColliderMaps.CollisionWorld.DeleteFromCells | internal/colliders/colliderMap.go:146-151 | The delete loop does to the layer exactly what `Deleted` describes |
| ColliderMaps.CollisionWorld.ApplyToLayer | internal/colliders/colliderMap.go:101-114 | One layer's remove-then-add (or add, or remove) is `ApplyOp` on that layer, and no other layer changes |
| ColliderMaps.CollisionWorld.ShiftInCells | internal/colliders/colliderMap.go:101-114 | Remove from the first run of cells, then append to the second |
| ColliderMaps.CollisionWorld.ApplyToTag | internal/colliders/colliderMap.go:205-209 | One turn of the tag loop, with `getColliderMap`'s miss skipped |
| ColliderMaps.CollisionWorld.ApplyToTags | internal/colliders/colliderMap.go:205-214 | The tag loop computes `ApplyPerTag`; AllColliders stays present |
| ColliderMaps.AppendedWithin | internal/colliders/colliderMap.go:204-224 | Appending a registered id to cells keeps every id the layer lists registered |
| ColliderMaps.DeletedWithin | internal/colliders/colliderMap.go:139-165 | Deleting ids from cells keeps every id the layer lists registered |
| ColliderMaps.ApplyOpWithin | internal/colliders/colliderMap.go:94-165 | Insert, erase and move passes of a registered collider keep every id the layer lists registered |
| ColliderMaps.ApplyPerTagWithin | internal/colliders/colliderMap.go:204-213 | The loop over the collider's tags keeps every id any layer lists registered |
| ColliderMaps.MapsAfterWithin | internal/colliders/colliderMap.go:204-224 | The tag loop followed by the AllColliders pass keeps every id any layer lists registered |
| ColliderMaps.CollisionWorld.ApplyToMaps | internal/colliders/colliderMap.go:204-224 | The tag loop, then the AllColliders layer: `MapsAfter`. The registry stays valid, so every id a cell lists is still a registered collider |
| ColliderMaps.CollisionWorld.AddColliderToMaps | internal/colliders/colliderMap.go:204-224 | Insert in the tag layers and in AllColliders, which by `MapsAfterAt` and `InsertAt` changes only footprint cells |
| ColliderMaps.CollisionWorld.RemoveColliderFromMaps | internal/colliders/colliderMap.go:139-165 | Erase every entry equal to the collider from the current footprint, in the tag layers and in AllColliders |
| ColliderMaps.CollisionWorld.UpdateColliderInMap | internal/colliders/colliderMap.go:94-136 | As written: the tag layers move the collider from the previous footprint to the current one, and AllColliders erases and re-appends at the previous footprint |
| ColliderMaps.CollisionWorld.UpdateColliderInMapCorrected | internal/colliders/colliderMap.go:94-115 | Every layer, AllColliders included, moves the collider from the previous footprint to the current one |
| ColliderMove.Dedupe | internal/colliders/collider.go:293-298 | The de-duplicated hits are drawn from the hits |
| ColliderMove.DedupeFacts | internal/colliders/collider.go:293-298 | The kept hits are pairwise unequal under `equals`, and every hit has an equal among them |
| ColliderMove.Collect | internal/colliders/collider.go:147-153 | The channel-draining loop that skips colliders equal to one already kept computes `Dedupe` |
| ColliderMove.PairEvents | internal/colliders/collider.go:324-328 | Two enter calls per newly seen collider |
| ColliderMove.PairEventsMembers | internal/colliders/collider.go:323-328 | Each newly seen collider gets `OnEnterCollision` with the mover, and the mover gets one with it. No other call is made |
| ColliderMove.ExitEvents | internal/colliders/collider.go:314-317 | As written, the mover's exit call gets the departed collider, and so does the departed collider's own |
| ColliderMove.ExitCallbackGetsItself | internal/colliders/collider.go:316 | As written, the departed collider's exit callback is handed itself, not the mover, while its enter callback was handed the mover |
| ColliderMove.ExitEventsIntended | internal/colliders/collider.go:315-316 | Each side's exit callback is handed the other side |
| ColliderMove.IntendedExitMirrorsEnter | internal/colliders/collider.go:315-316 | The intended exit calls have exactly the receivers and arguments of the enter calls |
| ColliderMove.ExitPass | internal/colliders/collider.go:301-321 | Definition of the exit loop over the previous step's colliders, in order. A collider with a match in the current set is kept, and the match is swap-removed from that set. A collider without one gets its two exit calls |
| ColliderMove.Diff | internal/colliders/collider.go:300-329 | Definition of the whole diff: the exit loop, then two enter calls for each current collider left unmatched. The next `lastSeen` is the kept colliders followed by those left unmatched |
| ColliderMove.FirstSame | internal/colliders/collider.go:304-308 | The first index of the current set whose collider equals the given one, or -1 iff there is none |
| ColliderMove.SwapRemove | internal/colliders/collider.go:310-311 | Move the last element into slot i and drop the last slot: one element fewer |
| ColliderMove.SwapRemoveFacts | internal/colliders/collider.go:309-311 | The swap-remove drops exactly the element at i, and keeps the rest registered and pairwise unequal |
| ColliderMove.ExitPassRemaining | internal/colliders/collider.go:301-321 | After the exit loop, the unmatched current colliders are exactly those with no equal in the previous step's set |
| ColliderMove.ExitPassMatch | internal/colliders/collider.go:303-314 | A previous collider finds no match (`hadCollision` stays false) iff nothing touched now equals it |
| ColliderMove.ExitPassKept | internal/colliders/collider.go:318-320 | A previous collider is kept iff something touched now equals it |
| ColliderMove.ExitPassEvents | internal/colliders/collider.go:313-317 | The exit loop makes only exit calls. Each is about a collider touched before that nothing touched now equals, and is received by the mover or by that collider. Such a collider x gets both `Exit(mover, x)` and, as written, `Exit(x, x)` |
| ColliderMove.ExitPassFacts | internal/colliders/collider.go:300-321 | The exit loop's three results together |
| ColliderMove.ExitPassKeptOrdered | internal/colliders/collider.go:318-320 | The kept colliders come from the previous set and are pairwise unequal |
| ColliderMove.DiffFacts | internal/colliders/collider.go:300-329 | A collider touched before and not now gets the mover's exit call and its own (`Exit(x, x)`, as written). A collider touched now and not before gets the mover's enter call and its own, which is handed the mover. Every call is one of these four kinds. The next `lastSeen` matches the current set, one for one up to `equals` |
| ColliderMove.DiffSkipsStayers | internal/colliders/collider.go:300-329 | A collider other than the mover that is touched at both steps is neither the receiver nor the argument of any call |
| ColliderMove.DiffKeepsDistinct | internal/colliders/collider.go:319-329 | The next `lastSeen` is registered and pairwise unequal |
| ColliderMove.DiffMatchesSeen | internal/colliders/collider.go:300-329 | The next `lastSeen` and the colliders touched now match both ways up to `equals` |
| ColliderMove.DiffCoversSeen | internal/colliders/collider.go:300-329 | Every collider touched now has an equal in the next `lastSeen` |
| ColliderMove.DiffWithinSeen | internal/colliders/collider.go:300-329 | Every collider of the next `lastSeen` has an equal among those touched now |
| ColliderMove.FindSame | internal/colliders/collider.go:304-308 | The inner search loop finds `FirstSame`, or runs off the end |
| ColliderMove.ExitSweep | internal/colliders/collider.go:301-321 | The exit loop computes `ExitPass` |
| ColliderMove.EnterSweep | internal/colliders/collider.go:323-329 | The enter loop appends two enter calls per leftover collider, and appends the leftovers to the buffer |
| ColliderMove.DiffStep | internal/colliders/collider.go:300-329 | Both loops together compute `Diff` |
| ColliderMove.CellContents | internal/colliders/collider.go:202-203 | Definition of the candidates of a run of cells: each cell's collider list in turn, cells in the order given. A missing cell contributes nothing |
| ColliderMove.Detects | internal/colliders/collider.go:252-284 | Which edge test a pass runs on a candidate: the vertical-side test for the horizontal leading edge, the horizontal-side test for the vertical one, and all four sides for the start-position pass |
| ColliderMove.Reported | internal/colliders/collider.go:252-284 | The filters a candidate passes before its edge test: registered, not `equals` to the mover, no tag in the ignore list; `Scan` reports exactly these |
| ColliderMove.Scan | internal/colliders/collider.go:252-284 | A pass reports exactly the candidates that are not `equals` to the mover, carry no ignored tag and are detected by the edge test |
| ColliderMove.ScanIgnoresMoverIgnore | internal/colliders/collider.go:200-226 | With no ignore filter, a pass does not depend on the mover's Ignore tags |
| ColliderMove.LeadingEdges | internal/colliders/collider.go:177-194 | The edges facing the motion: an ordered horizontal segment and an ordered vertical segment |
| ColliderMove.ProbeLayer | internal/colliders/collider.go:200-226 | One layer's horizontal-edge candidates, then its vertical-edge candidates. All are registered |
| ColliderMove.BlockHits | internal/colliders/collider.go:199-227 | The blocking pass over the Block layers reports only registered colliders not `equals` to the mover |
| ColliderMove.BlockingDisregardsIgnore | internal/colliders/collider.go:200-226 | The blocking pass is the same whatever the mover's Ignore tags are |
| ColliderMove.NoticeHits | internal/colliders/collider.go:250-286 | The notification pass over AllColliders reports only registered colliders |
| ColliderMove.NoticeHonoursIgnore | internal/colliders/collider.go:255-276 | The notification pass never reports a collider with an ignored tag, or one `equals` to the mover |
| ColliderMove.SeedHits | internal/colliders/collider.go:118-142 | The start-position pass never reports a collider with an ignored tag, or one `equals` to the mover |
| ColliderMove.SeedsFacts | internal/colliders/collider.go:143-153 | The initial `lastSeen` is registered and pairwise unequal, and it matches every start-position hit |
| ColliderMove.Steps | internal/colliders/collider.go:157-173 | The number of clamped steps still needed on one axis, `ceil(remaining / step)`, or 0 when nothing remains. It is a measure of the loop's progress and has no counterpart in the code |
| ColliderMove.Measure | internal/colliders/collider.go:157-173 | The steps still needed on both axes together. Each turn of the step loop lowers it (`AdvanceFacts`), which is why the loop ends |
| ColliderMove.Advance | internal/colliders/collider.go:161-173 | Definition of one step: each axis's step is clamped to the distance left on that axis, then the center moves by it toward the target |
| ColliderMove.AxisStep | internal/colliders/collider.go:161-173 | Clamping a step to what is left never overshoots, and leaves a step count that strictly drops |
| ColliderMove.AdvanceFacts | internal/colliders/collider.go:157-173 | Each step moves each axis by at most its step, toward the target and never past it, stays between start and target, and strictly shrinks the remaining step count (termination) |
| ColliderMove.Seeds | internal/colliders/collider.go:143-153 | Definition of the initial `lastSeen`: the start-position hits, with colliders equal to an earlier one dropped |
| ColliderMove.Sweep | internal/colliders/collider.go:157-330 | Definition of the step loop. At the target it ends unblocked. Otherwise it takes a step, then probes the leading edges against the Block layers. Any blocker stops it at the previous point with the pair of enter calls per blocker. Without one, the AllColliders hits are diffed against `lastSeen` and the loop goes on |
| ColliderMove.SweepEnds | internal/colliders/collider.go:157-333 | The move ends between its start and its target on each axis, and an unblocked move ends on the target |
| ColliderMove.BlockedStepEvents | internal/colliders/collider.go:234-248 | A blocked step calls `OnEnterCollision` on both sides once per distinct blocker, and every blocker hit has an equal among those called |
| ColliderMove.ClampedStep | internal/colliders/collider.go:161-173 | The head of a step is `Advance` |
| ColliderMove.StepOnce | internal/colliders/collider.go:158-329 | One turn of the step loop is one unfolding of `Sweep`: it stops at the previous position when blocked, and otherwise diffs and continues. It keeps the mover on its way |
| ColliderMove.Sweeping | internal/colliders/collider.go:156-330 | The step loop computes `Sweep` from the start with the seeded `lastSeen` |
| ColliderMove.MoveCollider | internal/colliders/collider.go:69-334 | A move to the current center returns it and changes nothing. Otherwise the result and the new center are where `Sweep` ends, the callbacks are logged, and the registry is re-indexed from the initial center |
| ColliderMove.Settle | internal/colliders/collider.go:92-96 | The deferred re-index uses the center the mover had before the move |
| GameState.GameState.constructor | internal/gameState/gameState.go:18-23 | Both buffers start empty |
| GameState.GameState.GetFlagValue | internal/gameState/gameState.go:42-48 | A promoted flag reads as its value and true; any other reads as (0, false) |
| GameState.GameState.SetFlagValue | internal/gameState/gameState.go:50-56 | A write changes only the future buffer |
| GameState.GameState.UpdateCurrentContext | internal/gameState/gameState.go:33-38 | Promotion overlays the future buffer on the current one and empties the future buffer |
| GameState.PromotionOverwrites | internal/gameState/gameState.go:33-38 | The overlay copies every future entry, overwriting, and leaves every other current entry as it was |
| GameState.SetIsDeferred | internal/gameState/gameState.go:42-56 | A write does not change what a read returns until promotion |
| GameState.SetPromoteGet | internal/gameState/gameState.go:33-56 | Set, promote, get returns (value, true) |
| GameState.LastWriteWins | internal/gameState/gameState.go:50-56 | Of two writes before a promotion, the last one is read |
| GameState.PromoteTwice | internal/gameState/gameState.go:33-38 | Two promotions in a row have the effect of one |
| GlobalScene.IsNextSceneRequested | internal/scenes/globalScene.go:188-194 | True iff NextScene is promoted and nonzero |
| GlobalScene.WasCloseRequested | internal/scenes/globalScene.go:197-204 | True iff CloseRequested is promoted and equals 1. A reset to 0 is scheduled whenever the flag is present, and the current buffer is untouched |
| GlobalScene.GlobalScene.constructor | internal/scenes/globalScene.go:52-67 | The cursor is the only global sprite, and the scene map and loading flag are recorded |
| GlobalScene.GlobalScene.AddToSprites | internal/scenes/globalScene.go:70-82 | Appends in order. Past 100 sprites it drops those reporting `IsNil`, and the rest keep their order |
| GlobalScene.GlobalScene.RemoveFromSprites | internal/scenes/globalScene.go:100-105 | As written, nothing is removed |
| GlobalScene.RemoveFromSpritesKeepsSprite | internal/scenes/globalScene.go:100-105 | The sprite asked to be removed is still present afterwards |
| GlobalScene.GlobalScene.RemoveFromSpritesCorrected | internal/scenes/globalScene.go:100-105 | The `slices.DeleteFunc` with the predicate comparing the sprite pointers themselves, as `RemoveFromGameObjects` compares game objects: every occurrence of the sprite is removed, and the others keep their order |
| GlobalScene.GlobalScene.AddToGameObjects | internal/scenes/globalScene.go:111-115 | Appends in order |
| GlobalScene.GlobalScene.RemoveFromGameObjects | internal/scenes/globalScene.go:118-141 | Removes every equal object, and the others keep their order |
| GlobalScene.GlobalScene.AddToAudio | internal/scenes/globalScene.go:143-155 | Appends in order. Past 20 players it drops those reporting `IsNil`, and the rest keep their order |
| GlobalScene.GlobalScene.RemoveFromAudio | internal/scenes/globalScene.go:157-166 | Removes every equal player, and the others keep their order |
| GlobalScene.GlobalScene.PopNextScene | internal/scenes/globalScene.go:169-185 | Returns the default and false when NextScene is missing, is 0, or names no scene; otherwise the named factory and true. It always schedules NextScene := 0 |
| GlobalScene.GlobalScene.UseLoadingScene | internal/scenes/globalScene.go:207-210 | True iff the loading-scene flag is promoted and nonzero |
| Inputs.StateOf | internal/inputs/inputs.go:247-257 | A key's state as `dirtyPop` reads it: a key without an entry reads as Go's zero value, Inactive |
| Inputs.Deliveries | internal/inputs/inputs.go:162-176 | One `OnKeyAction` call per listener walked: the i-th call goes to the i-th listener, with the action given |
| Inputs.UnsubscribeWalk | internal/inputs/inputs.go:104-134 | Definition of the walk front to back. Reclaimed listeners met before the match are removed, the first live occurrence of the listener is removed and the walk stops, and the flag says whether it was found |
| Inputs.IndexOf | internal/inputs/inputs.go:117-124 | The position where the walk meets the listener: an index holding it, with no earlier occurrence |
| Inputs.UnsubscribeWalkFinds | internal/inputs/inputs.go:104-134 | The walk finds the listener iff it is in the list and not reclaimed |
| Inputs.UnsubscribeWalkHit | internal/inputs/inputs.go:104-125 | On a hit, entries before the first occurrence lose the reclaimed ones, that occurrence goes, and the entries after it are untouched |
| Inputs.UnsubscribeWalkMiss | internal/inputs/inputs.go:104-141 | On a miss, the whole list loses its reclaimed entries |
| Inputs.UnsubscribeWalkResult | internal/inputs/inputs.go:104-141 | Both outcomes of the walk together |
| Inputs.SubscribeUnsubscribeRoundTrip | internal/inputs/inputs.go:80-124 | Subscribing a live listener and then unsubscribing it gives the list back, with success |
| Inputs.Changes | internal/inputs/inputs.go:247-257 | `dirtyPop`'s test for an action it returns: a Release, or a Press of a key not yet Pressed; `PopIsFirstChange` shows it picks the first such action |
| Inputs.Pop | internal/inputs/inputs.go:239-258 | A drain that finds nothing empties the queue and keeps the key states. Otherwise the action returned is the one just before the queue left behind: a Release, or a Press of a key that was Inactive. Its key becomes Inactive or Pressed to match, and no other key changes |
| Inputs.PopIsFirstChange | internal/inputs/inputs.go:239-258 | The queue left behind is a suffix of the queue given, and every action skipped before the one returned (every action, when nothing is returned) is neither a Release nor a Press of an Inactive key (a Repeat, or a Press of a key already Pressed): the action returned is the first in FIFO order that changes a state |
| Inputs.RepeatedPressIsSwallowed | internal/inputs/inputs.go:251-254 | A Press of a held key is skipped, and the Release behind it comes out |
| Inputs.NotifyRound | internal/inputs/inputs.go:147-187 | One round: keys with lists are kept, calls go only to live listeners, and an exhausted queue ends the loop |
| Inputs.RoundReachesLiveListeners | internal/inputs/inputs.go:154-176 | When the popped action's key has a list, a listener receives the action iff it is in that list and not reclaimed, and no call carries another action |
| Inputs.NotifyRun | internal/inputs/inputs.go:144-193 | Definition of Notify's loop: `NotifyRound` repeated until a pop yields nothing, with each round's calls appended in order |
| Inputs.NotifyRunFacts | internal/inputs/inputs.go:144-193 | Draining keeps the keys with lists and only appends calls, never to a reclaimed listener, and lists only lose entries |
| Inputs.DeleteFuncShrinks | internal/inputs/inputs.go:158-166 | Pruning never adds an entry |
| Inputs.InputManager.constructor | internal/inputs/inputs.go:43-66 | W, A, S, D, Escape, LMB and RMB start Inactive, each with an empty list, and the queue is empty with room for 10 |
| Inputs.InputManager.GetKeyState | internal/inputs/inputs.go:75-78 | A known key's state and true; otherwise (Inactive, false) |
| Inputs.InputManager.Subscribe | internal/inputs/inputs.go:80-96 | An unknown key gives false and no change; a known key gets the listener at the front, with true |
| Inputs.InputManager.Unsubscribe | internal/inputs/inputs.go:98-142 | An unknown key is an error. Otherwise the list becomes the walk's result. A miss is an error for a live listener, and a nil-pointer panic in the warning for a reclaimed one |
| Inputs.InputManager.Push | internal/inputs/inputs.go:221-228 | Always appends, and fails exactly when the queue reaches its capacity |
| Inputs.InputManager.DirtyPop | internal/inputs/inputs.go:230-259 | The loop computes `Pop`, returns (zero, false) on an empty queue, and keeps the room left |
| Inputs.InputManager.NotifyListeners | internal/inputs/inputs.go:154-187 | The list walk prunes reclaimed listeners and calls every live one, front to back |
| Inputs.InputManager.NotifyNext | internal/inputs/inputs.go:147-187 | One turn of Notify's loop is `NotifyRound` |
| Inputs.InputManager.Notify | internal/inputs/inputs.go:144-193 | Notify computes `NotifyRun` and leaves a fresh empty queue with room for 10 |
| Inputs.InputManager.KeyCallback | internal/inputs/inputs.go:195-206 | Repeat is dropped; anything else is queued, and fails iff the queue fills |
| Inputs.InputManager.MouseCallback | internal/inputs/inputs.go:208-219 | As the key callback, under `MouseButtonToKey(button)` |
| Inputs.TenthPushInAFrameIsFatal | internal/inputs/inputs.go:221-228 | From a fresh queue, nine pushes succeed and the tenth fails |
| Keys.MouseButtonToKey | internal/inputs/keys.go:33-35 | Every button number of 0 or more maps to a code of at most -2, below every keyboard code |
| Keys.MouseButtonRoundTrip | internal/inputs/keys.go:33-35 | The fold `-m - 2` is inverted by `-k - 2`, both ways |
| Keys.MouseButtonToKeyInjective | internal/inputs/keys.go:33-35 | Distinct buttons get distinct codes |
| Keys.MouseKeysAreFolded | internal/inputs/keys.go:22-23 | LMB and RMB are the fold of buttons 1 and 2, and differ from each other and from the game's keyboard keys |
| Text.RuneToCoords | internal/text/text.go:47-54 | Every table entry is a cell of the 7×6 atlas |
| Text.ToLower | internal/text/text.go:55 | Lower-casing changes a character into one in the table only for A-Z, the Kelvin sign and the dotted capital I |
| Text.AtlasCell | internal/text/text.go:55-57 | Always a cell of the atlas; a character outside the table falls back to (0, 0) |
| Text.AtlasCellCases | internal/text/text.go:47-57 | Upper and lower case share a glyph (`W` and `w` both give (1, 3)), and an unknown character such as `#` shows the glyph of `a` |
| Text.TexCoords | internal/text/text.go:61-69 | Twelve coordinates, all in [0, 1] for a cell of the atlas |
| Text.TexCoordsSpanOneCell | internal/text/text.go:61-69 | The quad is one seventh wide and one sixth high, anchored at the cell |
| Text.RuneLen | internal/text/text.go:22 | A character takes 1 to 4 bytes, 1 iff it is ASCII |
| Text.ByteLen | internal/text/text.go:18 | `len(message)` is at least the number of characters |
| Text.Advance | internal/text/text.go:23-41 | Definition of how one character moves the cursor. A newline moves it to the next row. Any other character moves one column right, and on past the limit it wraps to column 0 of the next row |
| Text.CursorAfter | internal/text/text.go:20-42 | Row and column stay nonnegative, and the row never exceeds the number of characters |
| Text.CursorWraps | internal/text/text.go:37-41 | Without newlines and with a limit w >= 0, the cursor after n characters satisfies row·(w+1) + col = n with 0 <= col <= w, so each row holds w+1 glyphs |
| Text.NewlineStartsRow | internal/text/text.go:23-27 | A newline moves to column 0 of the next row |
| Text.NoLimitStacksCharacters | internal/text/text.go:37-41 | As written, the "no limit" -1 puts every character on its own row |
| Text.AdvanceIntended | internal/text/text.go:37-41 | The same cursor step, with the wrap skipped when the limit is -1 |
| Text.CursorAfterIntended | internal/text/text.go:13 | The layout that honours -1 as no limit keeps row and column nonnegative |
| Text.NoLimitKeepsOneRow | internal/text/text.go:13 | With -1 honoured, a line without newlines stays on row 0 |
| Text.IntendedAgreesWithLimit | internal/text/text.go:37-41 | For any other limit, the intended layout is the written one |
| Text.GlyphAt | internal/text/text.go:29-31 | Definition of the sprite for a character: placed at `bottomLeft + cursor * 16 * scale`, stretched by `scale`, with the texture of its atlas cell |
| Text.Slot | internal/text/text.go:22-36 | Definition of slot k of the result: nil for a newline or a failed creation, otherwise the character's sprite at the cursor after the characters before it |
| Text.Rendered | internal/text/text.go:18-36 | The result has one slot per byte of the message |
| Text.ByteLenAscii | internal/text/text.go:18 | ASCII text takes one byte per character |
| Text.RenderedAscii | internal/text/text.go:18-36 | For ASCII text, slot k is character k's sprite, or nil for a newline or a failed creation |
| Text.RenderedStep | internal/text/text.go:22-41 | One more character adds its slot and the nil slots of its other bytes, and moves the cursor one step |
| Text.AllCreated | internal/text/text.go:31-35 | The final `ok`: every character other than a newline got its sprite; `AllCreatedStep` and `TextToSprites` tie it to the loop |
| Text.AllCreatedStep | internal/text/text.go:31-35 | `ok` stays true iff it was and this character's sprite, if it needs one, was created |
| Text.PlaceCharacter | internal/text/text.go:22-41 | One turn of the range loop keeps the loop's invariants |
| Text.TextToSprites | internal/text/text.go:15-44 | The slice is `Rendered`, one slot per byte laid out as `RenderedStep` and `RenderedAscii` describe, and `ok` is false iff some needed creation failed |
| Utils.Clamp | internal/utils/math.go:5-7 | At most the maximum, at least the minimum when the range is ordered, the value itself when it is in range, and the maximum when the range is inverted |
| Utils.ClampIdempotent | internal/utils/math.go:6 | Clamping twice is clamping once |
| Utils.ClampNearest | internal/utils/math.go:6 | Below the range gives the minimum, and above it the maximum |
| Utils.AnyOverlap | internal/utils/slices.go:5-12 | True iff some element of the first slice is in the second |
| Utils.AnyOverlapEmpty | internal/utils/slices.go:5-12 | False when either slice is empty |
| Utils.AnyOverlapSymmetric | internal/utils/slices.go:5-12 | The order of the arguments does not matter |
| Utils.AnyOverlapMonotone | internal/utils/slices.go:5-12 | Adding elements to either slice, at either end, keeps an overlap |
| Utils.DeleteFunc | internal/scenes/globalScene.go:133-138 | The survivors are elements of the input that are not doomed, and there are no more of them |
| Utils.DeleteFuncKeeps | internal/scenes/globalScene.go:133-138 | Every element that is not doomed survives as often as it occurred |
| Utils.DeleteFuncAppend | internal/scenes/globalScene.go:133-138 | Deletion distributes over concatenation, so survivors keep their relative order |
| Utils.DeleteFuncNothing | internal/scenes/globalScene.go:100-105 | With nothing doomed, the slice is unchanged |

## Left out

- Concurrency:
  - the goroutines and channels of MoveCollider;
  - the registry mutex and the scene mutex;
  - the goroutines that run the callbacks and `OnKeyAction`.

  Hits are scanned in cell order and callbacks are logged in program order, so an order the
  source does not fix is fixed here.
- The 100-slot hit channels of MoveCollider. The model puts no bound on the hits of a pass. With
  more than 100 the source would block on a full channel before draining it.
- Floating point. Coordinates are exact reals, not float32. The step `(dx, dy)` is a parameter,
  not derived through `math.Sqrt` of the slope. Text layout positions are reals too.
- Logging throughout, including the warnings about long listener lists and a full hit channel.
- OpenGL, GLFW, sprite creation and audio. Sprite creation in text layout is an oracle (the set
  `failing`). `switchScene`, `Update`, `Kill` and scene construction in `InitializeGlobalScene`
  are not part of this model.
- Weak pointers are listener identities. Reclamation is the set `collected`.
- Inputs.InputManager.Subscribe takes no `collected`. Its debug log dereferences the pointer
  after pushing it (inputs.go:85-93), so subscribing a reclaimed listener panics; the model
  describes only the subscription of a live one. The callers subscribe `weak.Make` of live objects.
- Listener lists never hold nil entries or values of another type, because `Subscribe` stores
  only weak pointers. The nil branch and the fatal default branch of the list walks are not
  modelled.
- ColliderMove.MoveCollider:
  - it requires every Block tag to name a layer; an unknown Block tag leaves a nil map that the
    source dereferences;
  - it requires nonnegative collider sizes;
  - it dereferences `Parent` in `equals`, so a nil parent panics, and the model compares parents
    as values;
  - it uses `updateColliderInMap` as written, so the AllColliders layer is left stale (see
    Findings).
- ColliderMove.ExitPass takes the first match in the current set, while the source's inner loop
  scans on after a match. The two agree when no two current colliders are `equals`, which
  `Dedupe` guarantees (`DedupeFacts`).
- ColliderMaps.ApplyPerTagAt and the lemmas built on it assume the collider's tags are distinct
  and do not include AllColliders. With a repeated tag the model still computes the result, but
  no lemma describes it.
- ColliderMaps.CollisionWorld.Valid keeps the AllColliders layer present, because the registry is
  created with it and nothing removes it. The source's error branch for a missing AllColliders
  layer is therefore not modelled. Valid also requires every id a layer cell lists to be a
  registered collider; the source never deletes from its collider heap, so nothing can break it.
- ColliderMaps.Footprint, ApplyOp, ApplyPerTag, MapsAfter and the CollisionWorld methods that
  change the layers require a collider of nonnegative width and height (`Sized`). The source
  does not check this; its callers build 32 by 32 players and 128 by 128 blocks. A negative size
  is not modelled.
- Inputs.InputManager.Push: a push that fills the queue is fatal in the callbacks, so the model
  does not describe any later state (`Valid` holds only after a successful push).
- Dafny strings hold Unicode scalar values. Invalid UTF-8 in a Go string, which `range` reads as
  U+FFFD, is not modelled.
- GlobalScene.GlobalScene.RemoveFromSpritesCorrected follows the `slices.DeleteFunc` of
  `RemoveFromSprites`. The commented-out swap-remove above it in globalScene.go, which would
  remove only the first match and reorder the list, is not modelled.
- `GetCurrentGameState`, `GetGlobalScene` and `GetInputManager` create singletons lazily. Here
  the objects are passed explicitly.

## Findings

| source | as written | input that shows it | evidently intended | confidence | as-written member | corrected member |
|---|---|---|---|---|---|---|
| internal/scenes/globalScene.go:100-105 | the predicate compares `&heldSprite` with `&sprite`, the addresses of two distinct variables, so it never holds | any sprite present in `GlobalSprites`: after `RemoveFromSprites(s)` it is still there | remove the entries equal to `sprite`, as `RemoveFromGameObjects` does | high, not executed | GlobalScene.GlobalScene.RemoveFromSprites, GlobalScene.RemoveFromSpritesKeepsSprite | GlobalScene.GlobalScene.RemoveFromSpritesCorrected |
| internal/text/text.go:37-41 | `colCount > maxCharWidth` holds after every character when `maxCharWidth` is -1, the value the comment at line 13 documents as "no limit" | `TextToSprites("ab", …, -1)` places 'a' at row 0 and 'b' at row 1 | -1 disables wrapping, so "ab" stays on row 0 | high, not executed | Text.NoLimitStacksCharacters | Text.CursorAfterIntended, Text.NoLimitKeepsOneRow, Text.IntendedAgreesWithLimit |
| internal/colliders/colliderMap.go:121-135 | the new-footprint cells computed at line 121 are overwritten by the previous-footprint cells at line 124, and those are used for the append at line 134 | a collider moved to a new chunk: in AllColliders it is still listed at its old cells and missing from its new ones | delete from the previous footprint, append to the current one, as for the tag layers | high, not executed | ColliderMaps.CollisionWorld.UpdateColliderInMap, ColliderMaps.UpdateLeavesAllCollidersStale | ColliderMaps.CollisionWorld.UpdateColliderInMapCorrected, ColliderMaps.UpdateCorrectedReindexes |
| internal/colliders/collider.go:316 | `collider.OnExitCollision(collider)` hands the departing collider itself | a collider touched at one step and not at the next: its exit callback receives itself, while its enter callback had received the mover | `collider.OnExitCollision(c)`, mirroring line 326 | medium, not executed | ColliderMove.ExitEvents, ColliderMove.ExitCallbackGetsItself | ColliderMove.ExitEventsIntended, ColliderMove.IntendedExitMirrorsEnter |

The main model follows the code as written: `MoveCollider` re-indexes with
`UpdateColliderInMap`, `Sweep` logs `ExitEvents`, and `TextToSprites` lays out with `CursorAfter`.
The corrected definitions sit beside them, with the intended properties proved.
