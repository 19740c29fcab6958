# VVSDraggableLayout in Dafny

A model of `VVSDraggableLayout`, a collection-view layout that places items
in repeating clusters of six tiles and lets the user long-press an item and
drag it to reorder the collection. The model has four modules:

- `Geometry` (geometry.dfy) holds points, sizes and rectangles with real
  coordinates. It also holds the two containment tests: point-in-rect is
  half-open, and rect-in-rect includes every edge. Both tests standardise a
  rectangle of negative size first.
- `ClusterLayout` (layout.dfy) is the layout engine. It covers:
  - the six slot frames and `getAttributes`, which also answers
    `layoutAttributesForItemAtIndexPath`;
  - the square content size;
  - the attribute cache that `prepareLayout` rebuilds;
  - the rectangle query;
  - the 20-unit edge strips from `calculateBorders`.
- `DragController` (drag.dfy) is the `handleGesture` state machine.
  - Its state is `Idle | Dragging(Session)`.
  - It is driven by recogniser callbacks: `Possible`, `Began`, `Changed`,
    `Ended`, `Failed` and `Cancelled`.
  - Each callback returns the next state and the ordered list of effects it
    performs: hide or show a cell, add, fade or remove the preview, notify the
    delegate, move an item, reload data.
- `DragScenario` (drag_scenario.dfy) is a worked press, move and release over
  twelve laid-out cells.

The model keeps these behaviours exactly as the code has them:

- Frames repeat with period 6 and have no per-cluster offset, so items `i`
  and `i + 6` share a frame.
- Swift's `%` truncates toward zero, so a negative row that is not a multiple
  of 6 (for example -1) reaches the `fatalError` branch. The model returns a
  `Fault` for it.
- `prepareLayout` clears the cache inside its section loop, so only the last
  section survives. With no sections the loop never runs and the old cache is
  kept.
- The right strip's x is the frame's width minus 20 and ignores the frame's
  origin.
- The delegate is notified of a move only if it conforms to the reordering
  protocol, but the item is always moved.
- A `Began` that hits no cell while a session already exists keeps that
  session and shows it again.
- A `Began` that hits a cell while a session already exists replaces the
  session. The old cell stays hidden and the old preview stays in the
  draggable area.

Three properties of the geometry follow from the code:

- Frames carry no per-cluster offset, so items `i` and `i + 6` share a
  frame (`ClusterLayout.PeriodicFrames`).
- A negative row that is not a multiple of 6 reaches `fatalError`
  (`ClusterLayout.FaultExactlyOnNegativeRemainders`).
- The slots overlap once the bounds width exceeds 50 spacings, for example
  at 768 points with spacing 15: the big tile then reaches into the bottom
  row (`ClusterLayout.SlotsDisjointIffNarrow`).

## Model

| member | source | states |
|---|---|---|
| Geometry.ContainsRectExactness | VVSDragOrderLayout/VVSDragOrderLayout/VVSDragOrderLayout.swift:89 | a rectangle contains itself; narrowed by any positive amount up to its width, it no longer contains the original |
| ClusterLayout.ContentSize | VVSDragOrderLayout/VVSDragOrderLayout/VVSDragOrderLayout.swift:55-57 | the content size is a square whose side is the frame's standardised width, which is non-negative |
| ClusterLayout.ContentSizeIgnoresHeight | VVSDragOrderLayout/VVSDragOrderLayout/VVSDragOrderLayout.swift:55-57 | two containers with equal frame widths get equal content sizes, whatever their heights |
| ClusterLayout.SmallerCellWidth | VVSDragOrderLayout/VVSDragOrderLayout/VVSDragOrderLayout.swift:60-62 | for a non-negative width the small tile's side lies between 0 and the width, and for a positive width it is shorter than the big tile's side |
| ClusterLayout.BiggerCellWidth | VVSDragOrderLayout/VVSDragOrderLayout/VVSDragOrderLayout.swift:63-65 | for a non-negative width the big tile's side lies between 0 and the width |
| ClusterLayout.CellWidthsFollowBounds | VVSDragOrderLayout/VVSDragOrderLayout/VVSDragOrderLayout.swift:60-65 | the tile sides are 0.28 and 0.6 of the bounds width (not the frame width), so containers with equally wide bounds get equal sides |
| ClusterLayout.SlotFrame | VVSDragOrderLayout/VVSDragOrderLayout/VVSDragOrderLayout.swift:113-118 | every slot frame is a square, of side 0.6w for slot 0 and 0.28w for the others; the positions are stated by ClusterLayout.SlotShapes |
| ClusterLayout.SwiftRem | VVSDragOrderLayout/VVSDragOrderLayout/VVSDragOrderLayout.swift:111 | Swift's remainder lies strictly between -n and n; it agrees with the mathematical remainder on non-negative rows, and is never positive on negative ones; for n = 6 it also differs from the row by a multiple of 6, which fixes it as the truncated remainder (for other n, negative rows are bounded but not pinned) |
| ClusterLayout.GetAttributes | VVSDragOrderLayout/VVSDragOrderLayout/VVSDragOrderLayout.swift:108-122 | an index path gets attributes exactly when its row is non-negative or a multiple of 6, and otherwise faults with a negative remainder; the attributes carry the requested index path; a non-negative row gets the frame of slot row mod 6 |
| ClusterLayout.SlotShapes | VVSDragOrderLayout/VVSDragOrderLayout/VVSDragOrderLayout.swift:113-118 | slot 0 is a square of side 0.6w at (s, s); slots 1-5 are squares of side 0.28w; slots 1-3 share x = 0.6w+2s with vertical gaps of exactly s; slots 3-5 share y = 0.56w+3s; slot 5 sits at x = s, and slot 4 follows it after a gap of s |
| ClusterLayout.PeriodicFrames | VVSDragOrderLayout/VVSDragOrderLayout/VVSDragOrderLayout.swift:111-119 | for a non-negative row, rows i and i+6 both get attributes, and their frames are identical |
| ClusterLayout.PeriodicFramesN | VVSDragOrderLayout/VVSDragOrderLayout/VVSDragOrderLayout.swift:111-119 | for a non-negative row, rows i and i+6n share a frame for every n |
| ClusterLayout.FaultExactlyOnNegativeRemainders | VVSDragOrderLayout/VVSDragOrderLayout/VVSDragOrderLayout.swift:111-119 | row -1 reaches the fatal branch with remainder -1; row -6 does not; no non-negative row does |
| ClusterLayout.SlotsDisjointIffNarrow | VVSDragOrderLayout/VVSDragOrderLayout/VVSDragOrderLayout.swift:113-118 | with positive width and non-negative spacing, the six slots are pairwise disjoint if and only if w <= 50s |
| ClusterLayout.UniformGapsIff | VVSDragOrderLayout/VVSDragOrderLayout/VVSDragOrderLayout.swift:113-118 | the bottom-row gap between slots 4 and 3 and the column gap between slots 0 and 5 both equal s if and only if w = 25s |
| ClusterLayout.SectionAttributes | VVSDragOrderLayout/VVSDragOrderLayout/VVSDragOrderLayout.swift:78-81 | the reference cache of a section has one entry per item, and entry k is the attributes of item k |
| ClusterLayout.PrepareLayout | VVSDragOrderLayout/VVSDragOrderLayout/VVSDragOrderLayout.swift:73-82 | with no sections the cache is unchanged; otherwise it has as many entries as the last section has items, and entry k is getAttributes of (last section, k) |
| ClusterLayout.RebuiltCacheIsLastSection | VVSDragOrderLayout/VVSDragOrderLayout/VVSDragOrderLayout.swift:74-81 | any cache meeting PrepareLayout's contract equals the reference attributes of the last section |
| ClusterLayout.ContainedIn | VVSDragOrderLayout/VVSDragOrderLayout/VVSDragOrderLayout.swift:85-94 | the filtered cache holds exactly the cache entries whose frame the rectangle fully contains, and is no longer than the cache |
| ClusterLayout.ContainedInAppend | VVSDragOrderLayout/VVSDragOrderLayout/VVSDragOrderLayout.swift:88-92 | the filter keeps order: filtering a concatenation concatenates the filtered parts |
| ClusterLayout.LayoutAttributesForElementsInRect | VVSDragOrderLayout/VVSDragOrderLayout/VVSDragOrderLayout.swift:85-94 | the one-pass loop returns the order-preserving filter of the cache, whose members are exactly the fully contained entries |
| ClusterLayout.QueryByExactFrame | VVSDragOrderLayout/VVSDragOrderLayout/VVSDragOrderLayout.swift:89 | in a rebuilt cache, a rectangle equal to an item's frame returns that item, and the same rectangle one unit narrower does not |
| ClusterLayout.CalculateBorders | VVSDragOrderLayout/VVSDragOrderLayout/VVSDragOrderLayout.swift:147-175 | without a collection view the strips are unchanged; otherwise the four strip keys are added or replaced and every other key is kept |
| ClusterLayout.BorderStrips | VVSDragOrderLayout/VVSDragOrderLayout/VVSDragOrderLayout.swift:157-173 | every strip is 20 thick; left and top keep the frame's origin; the right strip's x is the frame's width minus 20; the bottom strip ends where the frame ends |
| ClusterLayout.RightStripAlignedIffAtZero | VVSDragOrderLayout/VVSDragOrderLayout/VVSDragOrderLayout.swift:165-168 | the right strip reaches the frame's right edge if and only if the frame's x is 0 |
| ClusterLayout.LayoutPass | VVSDragOrderLayout/VVSDragOrderLayout/VVSDragOrderLayout.swift:67-83 | a layout pass recomputes the strips and makes the cache the last section's attributes, or keeps the cache when there are no sections |
| DragController.FirstHit | VVSDragOrderLayout/VVSDragOrderLayout/VVSDragOrderLayout.swift:195-211 | the hit is the first visible cell whose frame contains the point; there is no hit exactly when no cell contains it |
| DragController.Step | VVSDragOrderLayout/VVSDragOrderLayout/VVSDragOrderLayout.swift:184-263 | a terminal event always leaves the machine idle; with no session, every event except a press does nothing; a `Possible` callback does nothing; a press that leaves a session hides its cell first and adds the preview if and only if the draggable area exists, and a press that leaves the machine idle emits nothing |
| DragController.BeganFromIdle | VVSDragOrderLayout/VVSDragOrderLayout/VVSDragOrderLayout.swift:193-223 | from idle, a session starts if and only if some cell contains the press. The session picks the first such cell: current index, source, preview frame, and offset = press minus origin. It emits hide, add and fade. With no hit there are no effects |
| DragController.BeganHitReplacesSession | VVSDragOrderLayout/VVSDragOrderLayout/VVSDragOrderLayout.swift:195-222 | a press that hits a cell during a session replaces it with a session for the first cell hit, emitting hide, add and fade for the new cell; the old cell is not shown and the old preview is not removed |
| DragController.BeganMissKeepsSession | VVSDragOrderLayout/VVSDragOrderLayout/VVSDragOrderLayout.swift:195-223 | a press that misses every cell during a session keeps that session; it re-emits hide and fade, and re-adds the preview only when the draggable area exists |
| DragController.BeganDetachedKeepsState | VVSDragOrderLayout/VVSDragOrderLayout/VVSDragOrderLayout.swift:189-191 | without a collection view or draggable area a press leaves the state unchanged: an idle machine emits nothing, and a session is shown again, with the preview re-added only when the draggable area exists |
| DragController.ChangedDuringSession | VVSDragOrderLayout/VVSDragOrderLayout/VVSDragOrderLayout.swift:229-248 | the preview origin becomes pointer minus offset. When the collection view reports a different item, the effects are one notify (only if the collection view's delegate conforms) and one move, and the current index follows. Otherwise there are no effects and the index stays |
| DragController.TerminalEndsSession | VVSDragOrderLayout/VVSDragOrderLayout/VVSDragOrderLayout.swift:253-260 | end, failure or cancellation clears the session; the effects are exactly: show the cell, remove the preview, then one reload if the collection view exists and its delegate conforms, none otherwise |
| DragController.NotificationsMatchMoves | VVSDragOrderLayout/VVSDragOrderLayout/VVSDragOrderLayout.swift:239-246 | over any run, the number of notifications equals the number of moves if the collection view's delegate conforms, and is zero otherwise |
| DragController.MovesWithinCellAreSilent | VVSDragOrderLayout/VVSDragOrderLayout/VVSDragOrderLayout.swift:229-248 | moves over the current item or over no item emit no effects; the session keeps its index, offset and source |
| DragController.IdleIgnoresAllButBegan | VVSDragOrderLayout/VVSDragOrderLayout/VVSDragOrderLayout.swift:227 | with no session, any run of non-press events leaves the machine idle with no effects |
| DragScenario.ScenarioCellFrames | VVSDragOrderLayout/VVSDragOrderLayout/VVSDragOrderLayout.swift:113-118 | at width 375 and spacing 15, items 0-3 sit at their literal frames, item 7 shares item 1's frame and item 9 shares item 3's |
| DragScenario.PressMoveRelease | VVSDragOrderLayout/VVSDragOrderLayout/VVSDragOrderLayout.swift:184-263 | press in item 3, move over item 7, release: item 3 (not item 9) is picked up, one notify(3,7) and one move(3,7) are emitted, then one reload, and the machine ends idle |

## Left out

- The views are not modelled. This covers the snapshot view, `addSubview` and `removeFromSuperview`, the `hidden` toggles, `darkTintView` and the 0.15-second fade to alpha 0.8. They appear only as the abstract effects `HideCell`, `ShowCell`, `AddPreview`, `FadePreview` and `RemovePreview`.
- `setup`, `gestureRecognizerShouldBegin` and the `draggableArea` default are framework wiring and are not modelled. This includes installing the recogniser, its 0.3-second minimum press duration, and the `didSet` that recomputes the strips. `Env.hasCollectionView` and `Env.hasDraggableArea` stand for whether each view exists.
- `convertRect` and `locationInView` are not modelled. Events carry points and visible-cell frames already in draggable-area coordinates. `CalculateBorders` takes the converted frame as a parameter, with `None` when there is no collection view.
- `visibleCells`, `indexPathForCell` and `indexPathForItemAtPoint` belong to the collection view. Their answers are event inputs.
- `setupPlaceHoldersInView` and `ViewController.swift` are view setup and are not part of this model.
- `CGFloat` is a double in the code. The model uses exact reals, so 0.28 and 0.6 are exact here.
- Crashes from force-unwrapping a missing collection view are not modelled. The layout functions always receive a `Container`. A missing collection view is modelled only where the code checks for it with an optional.
- The `animating` property, `super.prepareLayout()`, and the flow-layout spacing properties set to 0 in `prepareLayout` do not affect the geometry computed here. They are not modelled.
- Nothing reads the edge strips in this version, so auto-scrolling is not modelled.
