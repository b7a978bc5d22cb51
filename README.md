# TouchListView drag-and-drop core in Dafny

This project models the integer logic inside `TouchListView`, an Android `ListView` subclass whose rows can be dragged to reorder them and, optionally, removed by a fling or by a slide to one side. The model covers:

- **Drag state machine.** A press on a row's grab handle starts a drag. DOWN and MOVE events move the drag target, restyle the rows and scroll the list. UP or CANCEL ends the drag with a drop or a removal. A fast fling to the right can also remove the row.
- **Hit testing.** `myPointToPosition` scans the children back to front, hidden ones included. The framework's `pointToPosition` does the same scan over visible children only. `getItemForPosition` turns a finger height into a target position.
- **Scroll regulation.** The start bounds, `adjustScrollBounds`, the 4/16-pixel speed rule and the scroll request made of the list.
- **Row restyling.** `doExpansion` and `unExpandViews` run in place over the visible rows.
- **Configuration guards.** `addHeaderView` and `addFooterView`.

Files:

- `geometry.dfy` (module `Geometry`): rectangles, rows and Java's truncating division.
- `hit_test.dfy` (module `HitTest`): the back-to-front probe.
- `drag_target.dfy` (module `DragTarget`): `getItemForPosition`.
- `scroll_regulator.dfy` (module `ScrollRegulator`): the scroll bounds and speed.
- `row_expansion.dfy` (module `RowExpansion`): what doExpansion and unExpandViews assign to each row.
- `touch_list_view.dfy` (module `TouchList`): the class `TouchListView`, whose methods update its fields and its `array<Row>` in place.

How the Android parts are represented:

- The list's visible children are a snapshot array of `Row` records. Each record holds the row's hit rectangle, its grab handle's rectangle (if it has one), its layout height and its visibility.
- The drag image window and its bitmap become flags: `dragView` stands for `mDragView != null` and `dragBitmap` for `mDragBitmap != null`.
- Listener calls (`drag`, `drop`, `remove`), scroll requests (`setSelectionFromTop`) and the adapter re-attach after a removal are appended to a ghost event log.
- A `NullPointerException` the code can throw is a `Dispatch.NullPointer` result or a `threw` flag.

## Model

| member | source | states |
|---|---|---|
| Geometry.JavaDiv | src/com/commonsware/cwac/tlv/TouchListView.java:220 | Java int division: the quotient is truncated toward zero, bracketed from below for a non-negative dividend and from above for a negative one |
| Geometry.Draggable | src/com/commonsware/cwac/tlv/TouchListView.java:198-200 | a row is draggable exactly when it has a grab handle (findViewById(grabberId) != null) |
| Geometry.Restyle | src/com/commonsware/cwac/tlv/TouchListView.java:323-328 | setting a row's layout height and visibility changes only draggable rows (those with a grab handle), and never their hit or handle rectangles |
| HitTest.TopmostHit | src/com/commonsware/cwac/tlv/TouchListView.java:208-215 | the back-to-front scan returns the highest child index whose row registers a hit, with no higher child hitting, or -1 |
| HitTest.PositionAt | src/com/commonsware/cwac/tlv/TouchListView.java:206-217 | the probe returns INVALID_POSITION exactly when no child hits, and otherwise first + i for a child i that hits with no higher child hitting, always inside [first, first + childCount) |
| HitTest.PositionAtUnique | src/com/commonsware/cwac/tlv/TouchListView.java:206-217 | a child that hits with no higher child hitting is the one the probe names |
| DragTarget.ItemForPosition | src/com/commonsware/cwac/tlv/TouchListView.java:219-230 | the drag target is INVALID_POSITION or a position in [0, first + childCount] |
| DragTarget.TargetOnHit | src/com/commonsware/cwac/tlv/TouchListView.java:219-226 | a hit on child k aims at first + k, plus one when that is at or above the origin; every hit aims at a position of at least 1 |
| DragTarget.TargetOnMiss | src/com/commonsware/cwac/tlv/TouchListView.java:226-229 | a miss aims at 0 when the probe is above the list and at INVALID_POSITION otherwise |
| DragTarget.TargetMonotonic | src/com/commonsware/cwac/tlv/TouchListView.java:219-230 | for rows stacked top to bottom, a lower drag whose probe hits never aims above a higher drag that aims somewhere |
| DragTarget.DragBelowLastRowAimsAtNothing | src/com/commonsware/cwac/tlv/TouchListView.java:219-230 | the target is not monotonic in general: a drag below the last row aims at nothing while a higher one aims at position 1 |
| DragTarget.HitAboveOriginShiftsDown | src/com/commonsware/cwac/tlv/TouchListView.java:222-225 | with the origin at position 3, a probe on child 1 aims at position 2 |
| ScrollRegulator.StartBounds | src/com/commonsware/cwac/tlv/TouchListView.java:182-185 | the start bounds lie outside the middle third and at least a touch slop from the finger |
| ScrollRegulator.StartBoundsExample | src/com/commonsware/cwac/tlv/TouchListView.java:182-185 | height 300, slop 10 and finger at 150 give the bounds [100, 200] |
| ScrollRegulator.AdjustBounds | src/com/commonsware/cwac/tlv/TouchListView.java:232-239 | each bound is either kept or set to its third of the height |
| ScrollRegulator.AdjustStaysWithinThirds | src/com/commonsware/cwac/tlv/TouchListView.java:232-239 | adjusting keeps the bounds outside the middle third; the upper bound never decreases and the lower bound never increases |
| ScrollRegulator.AdjustIdempotent | src/com/commonsware/cwac/tlv/TouchListView.java:232-239 | a second adjustment at the same finger height changes nothing |
| ScrollRegulator.Speed | src/com/commonsware/cwac/tlv/TouchListView.java:387-395 | the speed is positive exactly below the lower bound, negative exactly above the upper bound and not below the lower one, and is one of -16, -4, 0, 4, 16 |
| ScrollRegulator.SpeedSign | src/com/commonsware/cwac/tlv/TouchListView.java:387-395 | the speed is 0 exactly between the bounds, positive exactly below the lower bound and negative exactly above the upper bound, and is one of -16, -4, 0, 4, 16 |
| ScrollRegulator.SpeedGrowsWithDistance | src/com/commonsware/cwac/tlv/TouchListView.java:387-395 | the further past a bound the finger is, the larger the speed's magnitude |
| ScrollRegulator.NoScrollInMiddleThird | src/com/commonsware/cwac/tlv/TouchListView.java:387-395 | a finger in the middle third never scrolls the list, whatever the bounds were before adjusting |
| RowExpansion.Expanded | src/com/commonsware/cwac/tlv/TouchListView.java:284-334 | every row, by index, gets doExpansion's choice for it |
| RowExpansion.Restored | src/com/commonsware/cwac/tlv/TouchListView.java:244-270 | every row, by index, is restyled to normal height and visible |
| RowExpansion.ExpansionFrame | src/com/commonsware/cwac/tlv/TouchListView.java:323-328 | expansion never touches a non-draggable row, or any row's hit and handle rectangles |
| RowExpansion.HoverOverOrigin | src/com/commonsware/cwac/tlv/TouchListView.java:305-310 | over its own slot, every draggable row has normal height and only the origin row is hidden |
| RowExpansion.HoverAwayFromOrigin | src/com/commonsware/cwac/tlv/TouchListView.java:305-314 | away from its own slot, every draggable row is visible and the origin row on screen is 1 pixel high |
| RowExpansion.AtMostOneExpanded | src/com/commonsware/cwac/tlv/TouchListView.java:315-320 | when the expanded height differs from the normal height and from 1, only the gap row can have the expanded height, and only when the target differs from the origin and is not the last item |
| RowExpansion.OnlyGapRowExpands | src/com/commonsware/cwac/tlv/TouchListView.java:294-328 | for any heights, every draggable row other than the origin and gap rows is normal and visible; the gap row, distinct from the origin row whenever the target differs from the origin, is visible and expanded exactly when the target differs from the origin and is not the last item |
| RowExpansion.RestoredIsNormal | src/com/commonsware/cwac/tlv/TouchListView.java:263-268 | after unExpandViews every draggable row is normal and visible and no other row has changed |
| RowExpansion.RestoreIdempotent | src/com/commonsware/cwac/tlv/TouchListView.java:244-270 | restoring twice is restoring once |
| RowExpansion.RestoreUndoesExpansion | src/com/commonsware/cwac/tlv/TouchListView.java:244-334 | restoring after any expansion gives the rows that restoring the original rows gives |
| RowExpansion.RestoreUndoesDrag | src/com/commonsware/cwac/tlv/TouchListView.java:244-334 | however many moves a drag makes, restoring afterwards gives the rows that restoring the original rows gives |
| TouchList.GrabAt | src/com/commonsware/cwac/tlv/TouchListView.java:146-171 | a press grabs exactly the position the visible-row probe names, and only when that row is draggable and x lies strictly inside the handle's horizontal extent; otherwise one of those fails |
| TouchList.ScrollRequest | src/com/commonsware/cwac/tlv/TouchListView.java:396-407 | at a non-zero speed, one request on the row under the middle of the list, or failing that on the row 64 pixels plus a divider lower, asking its top to move by -speed; no request when both probes miss or the speed is 0 |
| TouchList.ReleaseCallbacks | src/com/commonsware/cwac/tlv/TouchListView.java:347-364 | a release makes at most one listener call, and it is either remove of the origin or drop from the origin to the target |
| TouchList.ReleaseCallsOneListener | src/com/commonsware/cwac/tlv/TouchListView.java:347-364 | a release calls at most one listener: remove with the origin exactly when it is in a slide zone and a remove listener is set; otherwise drop from the origin to the target exactly when a drop listener is set and the target is inside the adapter |
| TouchList.SlideZones | src/com/commonsware/cwac/tlv/TouchListView.java:347-356 | only the slide modes remove on release, and the right and left slide zones do not overlap |
| TouchList.SlideRightExample | src/com/commonsware/cwac/tlv/TouchListView.java:347-351 | sliding right to 170 on an image 200 wide removes the origin and drops nothing |
| TouchList.TouchListView.constructor | src/com/commonsware/cwac/tlv/TouchListView.java:72-90 | the list starts with the configured heights, remove mode and touch slop, no listeners, no detector and no drag |
| TouchList.TouchListView.SetDragListener | src/com/commonsware/cwac/tlv/TouchListView.java:483-485 | only the drag listener changes |
| TouchList.TouchListView.SetDropListener | src/com/commonsware/cwac/tlv/TouchListView.java:487-489 | only the drop listener changes |
| TouchList.TouchListView.SetRemoveListener | src/com/commonsware/cwac/tlv/TouchListView.java:491-493 | only the remove listener changes |
| TouchList.TouchListView.AddHeaderView | src/com/commonsware/cwac/tlv/TouchListView.java:93-101 | adding a header always fails |
| TouchList.TouchListView.AddFooterView | src/com/commonsware/cwac/tlv/TouchListView.java:103-115 | adding a footer fails exactly in the slide remove modes and otherwise passes |
| TouchList.TouchListView.MyPointToPosition | src/com/commonsware/cwac/tlv/TouchListView.java:206-217 | the loop returns the probe's answer: INVALID_POSITION or a position whose row contains the point |
| TouchList.TouchListView.GetItemForPosition | src/com/commonsware/cwac/tlv/TouchListView.java:219-230 | returns the drag target of the current layout and session |
| TouchList.TouchListView.AdjustScrollBounds | src/com/commonsware/cwac/tlv/TouchListView.java:232-239 | only the bounds change, to their adjusted values, and they stay outside the middle third |
| TouchList.TouchListView.DoExpansion | src/com/commonsware/cwac/tlv/TouchListView.java:284-334 | the rows become the expansion of the old rows for the current origin and target |
| TouchList.TouchListView.UnExpandViews | src/com/commonsware/cwac/tlv/TouchListView.java:244-270 | the rows are restored; after a deletion the adapter is re-attached at the first row's top, and a deletion throws exactly when there is no child |
| TouchList.TouchListView.StopDragging | src/com/commonsware/cwac/tlv/TouchListView.java:470-481 | the drag image and bitmap are gone, and a removed image's deferred expansion is cancelled; nothing else changes |
| TouchList.TouchListView.StartDragging | src/com/commonsware/cwac/tlv/TouchListView.java:416-448 | a fresh drag image with a bitmap replaces any old one, placed at y - grab offset + screen offset, with its expansion pending |
| TouchList.TouchListView.OnOverlayDrawn | src/com/commonsware/cwac/tlv/TouchListView.java:526-533 | the first draw of the drag image runs the expansion once; later draws change nothing |
| TouchList.TouchListView.PressedAt | src/com/commonsware/cwac/tlv/TouchListView.java:144-153 | a press, if any, is on a visible position |
| TouchList.TouchListView.OnInterceptTouchEvent | src/com/commonsware/cwac/tlv/TouchListView.java:117-196 | creates the fling detector in fling mode with a remove listener; a drag begins, and the event is not intercepted, exactly when a DOWN with a drag or drop listener grabs a row's handle; the session and image after a press are given by Pressed |
| TouchList.TouchListView.CreateDetector | src/com/commonsware/cwac/tlv/TouchListView.java:119-141 | the detector exists afterwards exactly when it existed before or a remove listener is set in fling mode |
| TouchList.TouchListView.PressRow | src/com/commonsware/cwac/tlv/TouchListView.java:156-190 | a press outside the handle takes the offsets and forgets the drag image; a press inside begins the drag with target and origin at the row and the start bounds |
| TouchList.TouchListView.BeginDrag | src/com/commonsware/cwac/tlv/TouchListView.java:174-185 | target and origin become the pressed position, the height is captured and the bounds are the start bounds |
| TouchList.TouchListView.OnFling | src/com/commonsware/cwac/tlv/TouchListView.java:123-138 | with a drag image, a fling faster than 1000 ending past 2/3 of the image's width stops the drag, removes the origin and restores the rows (throwing with no remove listener); any other fling changes nothing |
| TouchList.TouchListView.Release | src/com/commonsware/cwac/tlv/TouchListView.java:344-366 | UP or CANCEL stops the drag, makes the release's listener call, restores the rows and re-attaches after a removal |
| TouchList.TouchListView.Retarget | src/com/commonsware/cwac/tlv/TouchListView.java:374-385 | on DOWN or a changed target, the drag listener hears (old target, new target), and on MOVE the rows are expanded for it |
| TouchList.TouchListView.Follow | src/com/commonsware/cwac/tlv/TouchListView.java:374-407 | the target becomes t, the bounds are adjusted and a scroll is requested at the speed they give |
| TouchList.TouchListView.Step | src/com/commonsware/cwac/tlv/TouchListView.java:368-408 | the drag image follows the finger; a step that aims nowhere changes nothing else, one that aims at t follows it |
| TouchList.TouchListView.HandleDrag | src/com/commonsware/cwac/tlv/TouchListView.java:342-410 | UP and CANCEL release, DOWN and MOVE step, other actions change nothing; the event is consumed unless the release throws |
| TouchList.TouchListView.OnTouchEvent | src/com/commonsware/cwac/tlv/TouchListView.java:336-414 | a fling that fires removes; otherwise an active drag handles the event, and without one nothing changes and the event is deferred |

## Left out

- Floating point. The alpha fade in `dragView` is not modelled; only the overlay's integer y is kept. Touch coordinates are truncated to ints, so a release at a fractional x is compared as its integer part. Fling velocity is an int.
- The gesture detector's velocity tracking. The `fling` argument of `OnTouchEvent` says whether a fling was recognised on the event and gives its x velocity. A recognised fling that does not remove changes nothing, so `OnTouchEvent` calls `OnFling` only for one that does. `onFling`'s return value goes only to the detector and is not modelled.
- The window manager, bitmap capture and drawing cache, the window parameters and the global visible rect. These are reduced to the `dragView` and `dragBitmap` flags, the overlay y and the image's width. The image's drawing rect is taken to start at 0 and to be as wide as the dragged row's hit rectangle.
- The framework's layout engine. `layoutChildren`, hit-rect recomputation and scrolling are not modelled. The row snapshot is replaced only by `Relayout`, which stands for the layout engine and is not a member of the source.
  - A restyled row keeps its hit rectangle until the next `Relayout`.
  - `unExpandViews` assumes its `layoutChildren` call creates no further children.
  - The `setAdapter`/`setSelectionFromTop` re-attach after a removal is a `Reattach` event.
- `Rect.contains` is not part of this model. It is taken to be half-open and to require a non-empty rectangle.
- The framework's `pointToPosition` is not part of this model. It is taken to be the same back-to-front scan restricted to visible children, as the comment at lines 202-205 implies.
- Attribute parsing from `TypedArray`, `Log.d` and the background colour. The constructor takes the heights, the remove mode code and the touch slop directly.
- 32-bit overflow. All arithmetic is on unbounded integers. Java's truncating division is modelled where an operand can be negative.
- The grab handle's position is taken in the coordinates the source compares it in, which are the handle's own `getLeft`/`getRight`.

Behaviour of the code worth knowing:

- CANCEL is handled exactly like UP: it drops or removes the row.
- `adjustScrollBounds` sets the upper bound to height/3 whenever the finger is at or below a third of the height, and the lower bound to 2*height/3 whenever the finger is at or above two thirds. Since the bounds start outside the middle third, the upper bound can only grow and the lower bound can only shrink, each moving toward the middle of the list.
- The drag target is monotonic in the finger height only when the lower probe hits a row (`TargetMonotonic`). A drag below the last row, or over a gap, aims at nothing (`DragBelowLastRowAimsAtNothing`).
- The press at line 189 clears `mDragView` without removing the image window. The orphaned image's first draw can still run the expansion, so `OnOverlayDrawn` does not require a drag image.
