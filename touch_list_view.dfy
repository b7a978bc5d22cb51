/** The drag-and-drop list itself: the touch dispatcher and drag session of
    TouchListView, over a snapshot of the list's visible rows. Calls into the
    host's listeners and the scroll requests made of the list are recorded in
    a ghost event log instead of being performed. */
module TouchList {
  import opened Geometry
  import opened HitTest
  import opened DragTarget
  import opened ScrollRegulator
  import opened RowExpansion

  /** Values of the remove_mode attribute. */
  const FLING: int := 0
  const SLIDE_RIGHT: int := 1
  const SLIDE_LEFT: int := 2

  /** How a dragged row can be removed; any attribute value other than the
      three above (the default is -1) removes nothing. */
  datatype RemoveMode = NoRemove | Fling | SlideRight | SlideLeft

  function ModeOf(code: int): RemoveMode
  {
    if code == FLING then Fling
    else if code == SLIDE_RIGHT then SlideRight
    else if code == SLIDE_LEFT then SlideLeft
    else NoRemove
  }

  datatype Action = Down | Move | Up | Cancel | OtherAction

  /** A touch event: its action, its position in the list's coordinates
      (truncated to ints) and the raw screen y. */
  datatype MotionEvent = MotionEvent(action: Action, x: int, y: int, rawY: int)

  /** What the list does to the outside world: the three listener calls, a
      scroll request setSelectionFromTop(position, top), and the adapter
      re-attach that follows a removal. */
  datatype Event =
    | Drag(from: int, to: int)
    | Drop(from: int, to: int)
    | Remove(which: int)
    | Scroll(position: int, top: int)
    | Reattach(position: int, top: int)

  /** How a touch handler ends: it returns a value, it defers to the plain
      ListView handler, or it throws a NullPointerException. */
  datatype Dispatch = Returned(value: bool) | Deferred | NullPointer

  /** addHeaderView/addFooterView either accept (doing nothing) or throw. */
  datatype Outcome = Pass | Fail(message: string)

  /** A press on a row's grab handle: the handle's horizontal extent strictly
      contains x. The handle's vertical extent is not consulted. */
  predicate InGrabber(row: Row, x: int)
    requires Draggable(row)
  {
    row.grabber.value.left < x < row.grabber.value.right
  }

  /** The position a press at (x, y) grabs, or INVALID_POSITION: the list's
      own probe (visible rows only) must find a row, the row must have a grab
      handle, and x must be inside the handle. */
  function GrabAt(rows: seq<Row>, first: nat, x: int, y: int): (p: int)
    ensures p == INVALID_POSITION || first <= p < first + |rows|
    ensures p != INVALID_POSITION ==> p == PositionAt(rows, first, x, y, true)
    ensures p != INVALID_POSITION ==>
      var row := rows[p - first];
      row.visible && Contains(row.hit, x, y) && Draggable(row) && InGrabber(row, x)
    ensures p == INVALID_POSITION ==>
      var q := PositionAt(rows, first, x, y, true);
      q == INVALID_POSITION || !Draggable(rows[q - first]) || !InGrabber(rows[q - first], x)
  {
    var q := PositionAt(rows, first, x, y, true);
    if q != INVALID_POSITION && Draggable(rows[q - first]) && InGrabber(rows[q - first], x) then q
    else INVALID_POSITION
  }

  /** A release removes the dragged row when sliding right past three
      quarters of the drag image's width, or sliding left short of a
      quarter of it. Both thresholds are measured from the left edge of the
      image's drawing rectangle, which is 0. */
  predicate SlideRemoves(mode: RemoveMode, x: int, width: nat)
  {
    (mode == SlideRight && x > width * 3 / 4) || (mode == SlideLeft && x < width / 4)
  }

  /** A fling removes the dragged row when it is faster than 1000 to the
      right and ends past two thirds of the drag image's width. */
  predicate FlingRemoves(velocityX: int, x: int, width: nat)
  {
    velocityX > 1000 && x > width * 2 / 3
  }

  /** The listener calls a release makes: a removal of the origin in a slide
      zone, else a drop from the origin to the target when the target is an
      item of the adapter. */
  function ReleaseCallbacks(mode: RemoveMode, x: int, width: nat, removeListener: bool,
                            dropListener: bool, firstDragPos: int, dragPos: int, count: int): (ev: seq<Event>)
    ensures |ev| <= 1
    ensures forall e :: e in ev ==> e == Remove(firstDragPos) || e == Drop(firstDragPos, dragPos)
  {
    if SlideRemoves(mode, x, width) then
      if removeListener then [Remove(firstDragPos)] else []
    else if dropListener && 0 <= dragPos < count then [Drop(firstDragPos, dragPos)]
    else []
  }

  /** After a removal the adapter is re-attached and the list re-anchored at
      its first visible position and that row's top. */
  function ReattachAfter(deletion: bool, first: int, rows: seq<Row>): seq<Event>
  {
    if deletion && |rows| > 0 then [Reattach(first, rows[0].hit.top)] else []
  }

  /** The scroll request for a drag step at `speed`: anchor on the visible
      row at the middle of the list (or 64 pixels plus a divider lower, when
      the middle hits nothing) and ask for its top to move by -speed. */
  function ScrollRequest(rows: seq<Row>, first: nat, height: nat, divider: int, speed: int): (ev: seq<Event>)
    ensures |ev| <= 1
    ensures ev != [] ==> speed != 0
    ensures forall e :: e in ev ==>
      e.Scroll? && first <= e.position < first + |rows| &&
      rows[e.position - first].visible &&
      e.top == rows[e.position - first].hit.top - speed
    ensures var mid := PositionAt(rows, first, 0, height / 2, true);
      speed != 0 && mid != INVALID_POSITION ==>
        ev == [Scroll(mid, rows[mid - first].hit.top - speed)]
    ensures var mid := PositionAt(rows, first, 0, height / 2, true);
      var low := PositionAt(rows, first, 0, height / 2 + divider + 64, true);
      speed != 0 && mid == INVALID_POSITION && low != INVALID_POSITION ==>
        ev == [Scroll(low, rows[low - first].hit.top - speed)]
    ensures PositionAt(rows, first, 0, height / 2, true) == INVALID_POSITION &&
            PositionAt(rows, first, 0, height / 2 + divider + 64, true) == INVALID_POSITION ==>
      ev == []
  {
    if speed == 0 then []
    else
      var mid := PositionAt(rows, first, 0, height / 2, true);
      var ref := if mid == INVALID_POSITION
                 then PositionAt(rows, first, 0, height / 2 + divider + 64, true)
                 else mid;
      var i := ref - first;
      if 0 <= i < |rows| then [Scroll(ref, rows[i].hit.top - speed)] else []
  }

  /** A release calls at most one listener: in a slide zone only remove, and
      only with the origin; elsewhere only drop, from the origin to a target
      that is an item of the adapter. Conversely, remove is called whenever
      the release is in a slide zone and a remove listener is set, and drop
      whenever it is not, a drop listener is set and the target is an item. */
  lemma ReleaseCallsOneListener(mode: RemoveMode, x: int, width: nat, removeListener: bool,
                                dropListener: bool, firstDragPos: int, dragPos: int, count: int)
    ensures var ev := ReleaseCallbacks(mode, x, width, removeListener, dropListener, firstDragPos, dragPos, count);
      |ev| <= 1 &&
      (SlideRemoves(mode, x, width) ==> forall e :: e in ev ==> e == Remove(firstDragPos)) &&
      (!SlideRemoves(mode, x, width) ==> forall e :: e in ev ==> e == Drop(firstDragPos, dragPos) && 0 <= dragPos < count) &&
      (SlideRemoves(mode, x, width) && removeListener ==> ev == [Remove(firstDragPos)]) &&
      (!SlideRemoves(mode, x, width) && dropListener && 0 <= dragPos < count ==> ev == [Drop(firstDragPos, dragPos)])
  {
  }

  /** Only the slide modes remove on release, and the two slide zones of an
      image do not overlap. */
  lemma SlideZones(mode: RemoveMode, x: int, width: nat)
    ensures SlideRemoves(mode, x, width) ==> mode == SlideRight || mode == SlideLeft
    ensures SlideRemoves(SlideRight, x, width) ==> !SlideRemoves(SlideLeft, x, width)
  {
  }

  /** Sliding right to 170 on a drag image 200 wide removes the origin and
      drops nothing. */
  lemma SlideRightExample(firstDragPos: int, dragPos: int, count: int)
    ensures ReleaseCallbacks(SlideRight, 170, 200, true, true, firstDragPos, dragPos, count) == [Remove(firstDragPos)]
  {
  }

  /** Values of the list widget that the drag code reads but never sets, and
      the listeners and gesture detector. */
  datatype Widget = Widget(rows: array<Row>, first: nat, count: nat, viewHeight: nat, divider: nat,
                           dragListener: bool, dropListener: bool, removeListener: bool, detector: bool)

  /** The drag session: target, origin, grab offset, screen offset, scroll
      bounds and the list height captured when the drag started. */
  datatype Session = Session(dragPos: int, firstDragPos: int, dragPoint: int, coordOffset: int,
                             bounds: Bounds, height: nat)

  /** The floating drag image: whether the list holds it (mDragView) and
      its bitmap, whether its first draw is still to run the deferred
      expansion, its window y and its width. */
  datatype Overlay = Overlay(shown: bool, bitmap: bool, firstDrawPending: bool, y: int, width: nat)

  class TouchListView {
    // The list's current layout, as its layout engine leaves it.
    var rows: array<Row>
    var firstVisible: nat
    var itemCount: nat
    var viewHeight: nat
    var dividerHeight: nat

    // Configuration.
    const heights: Heights
    const removeMode: RemoveMode
    const touchSlop: nat

    var hasDragListener: bool
    var hasDropListener: bool
    var hasRemoveListener: bool
    var hasGestureDetector: bool

    // Drag session.
    var dragPos: int
    var firstDragPos: int
    var dragPoint: int
    var coordOffset: int
    var upperBound: int
    var lowerBound: int
    var height: nat

    // Drag image.
    var dragView: bool
    var dragBitmap: bool
    var firstDrawPending: bool
    var overlayY: int
    var overlayWidth: nat

    ghost var events: seq<Event>

    ghost function WidgetOf(): Widget
      reads this
    {
      Widget(rows, firstVisible, itemCount, viewHeight, dividerHeight,
             hasDragListener, hasDropListener, hasRemoveListener, hasGestureDetector)
    }

    ghost function SessionOf(): Session
      reads this
    {
      Session(dragPos, firstDragPos, dragPoint, coordOffset, Bounds(upperBound, lowerBound), height)
    }

    ghost function OverlayOf(): Overlay
      reads this
    {
      Overlay(dragView, dragBitmap, firstDrawPending, overlayY, overlayWidth)
    }

    /** Positions are never negative, the scroll bounds stay out of the
        middle third, and the list never holds a drag image without its
        bitmap. */
    ghost predicate Valid()
      reads this
    {
      0 <= dragPos && 0 <= firstDragPos &&
      WithinThirds(height, Bounds(upperBound, lowerBound)) &&
      (dragView ==> dragBitmap)
    }

    /** A drag is in progress for onTouchEvent. */
    predicate DragActive()
      reads this
    {
      (hasDragListener || hasDropListener) && dragView
    }

    /** The list is constructed with no rows, no listeners and no drag. */
    constructor (normalHeight: int, expandedHeight: int, removeModeCode: int, slop: nat)
      ensures Valid() && fresh(rows) && rows.Length == 0
      ensures heights == Heights(normalHeight, expandedHeight) && removeMode == ModeOf(removeModeCode)
      ensures touchSlop == slop
      ensures !hasDragListener && !hasDropListener && !hasRemoveListener && !hasGestureDetector
      ensures !dragView && !dragBitmap && !firstDrawPending && events == []
    {
      rows := new Row[0];
      firstVisible, itemCount, viewHeight, dividerHeight := 0, 0, 0, 0;
      heights := Heights(normalHeight, expandedHeight);
      removeMode := ModeOf(removeModeCode);
      touchSlop := slop;
      hasDragListener, hasDropListener, hasRemoveListener, hasGestureDetector := false, false, false, false;
      dragPos, firstDragPos, dragPoint, coordOffset := 0, 0, 0, 0;
      upperBound, lowerBound, height := 0, 0, 0;
      dragView, dragBitmap, firstDrawPending, overlayY, overlayWidth := false, false, false, 0, 0;
      events := [];
    }

    /** The list's layout engine lays out, scrolls or resizes the list: a new
        snapshot of visible rows, first visible position, item count, height
        and divider height. */
    method Relayout(children: seq<Row>, first: nat, count: nat, h: nat, divider: nat)
      requires Valid()
      modifies this
      ensures Valid() && fresh(rows) && rows[..] == children
      ensures WidgetOf() == old(WidgetOf()).(rows := rows, first := first, count := count,
                                             viewHeight := h, divider := divider)
      ensures SessionOf() == old(SessionOf()) && OverlayOf() == old(OverlayOf()) && events == old(events)
    {
      var laidOut := new Row[|children|](i requires 0 <= i < |children| => children[i]);
      assert laidOut[..] == children;
      rows := laidOut;
      firstVisible, itemCount, viewHeight, dividerHeight := first, count, h, divider;
    }

    method SetDragListener(present: bool)
      requires Valid()
      modifies this
      ensures Valid() && WidgetOf() == old(WidgetOf()).(dragListener := present)
      ensures SessionOf() == old(SessionOf()) && OverlayOf() == old(OverlayOf()) && events == old(events)
    {
      hasDragListener := present;
    }

    method SetDropListener(present: bool)
      requires Valid()
      modifies this
      ensures Valid() && WidgetOf() == old(WidgetOf()).(dropListener := present)
      ensures SessionOf() == old(SessionOf()) && OverlayOf() == old(OverlayOf()) && events == old(events)
    {
      hasDropListener := present;
    }

    method SetRemoveListener(present: bool)
      requires Valid()
      modifies this
      ensures Valid() && WidgetOf() == old(WidgetOf()).(removeListener := present)
      ensures SessionOf() == old(SessionOf()) && OverlayOf() == old(OverlayOf()) && events == old(events)
    {
      hasRemoveListener := present;
    }

    /** Header rows are never supported. */
    function AddHeaderView(): (o: Outcome)
      ensures o.Fail?
    {
      Fail("Headers are not supported with TouchListView")
    }

    /** Footer rows are refused in the slide remove modes and otherwise
        accepted and ignored (the footer is never added). */
    function AddFooterView(): (o: Outcome)
      ensures o.Fail? <==> removeMode.SlideLeft? || removeMode.SlideRight?
      ensures o.Pass? <==> removeMode.NoRemove? || removeMode.Fling?
    {
      if removeMode == SlideLeft || removeMode == SlideRight then
        Fail("Footers are not supported with TouchListView in conjunction with remove_mode")
      else Pass
    }

    /** myPointToPosition: scan the children back to front, hidden ones too,
        for one whose hit rectangle contains (x, y). */
    method MyPointToPosition(x: int, y: int) returns (pos: int)
      ensures pos == PositionAt(rows[..], firstVisible, x, y, false)
      ensures pos == INVALID_POSITION ||
              (firstVisible <= pos < firstVisible + rows.Length &&
               Contains(rows[pos - firstVisible].hit, x, y))
    {
      var i := rows.Length - 1;
      while i >= 0
        invariant -1 <= i < rows.Length
        invariant forall j :: i < j < rows.Length ==> !Contains(rows[j].hit, x, y)
      {
        if Contains(rows[i].hit, x, y) {
          PositionAtUnique(rows[..], firstVisible, x, y, false, i);
          return firstVisible + i;
        }
        i := i - 1;
      }
      assert forall j :: 0 <= j < rows.Length ==> !Hits(rows[..][j], x, y, false);
      return INVALID_POSITION;
    }

    /** getItemForPosition: the target position of a drag at y. */
    method GetItemForPosition(y: int) returns (pos: int)
      ensures pos == ItemForPosition(rows[..], firstVisible, firstDragPos, dragPoint, heights.normal, y)
    {
      var adjustedY := y - dragPoint - JavaDiv(heights.normal, 2);
      pos := MyPointToPosition(0, adjustedY);
      if pos >= 0 {
        if pos <= firstDragPos {
          pos := pos + 1;
        }
      } else if adjustedY < 0 {
        pos := 0;
      }
    }

    /** adjustScrollBounds */
    method AdjustScrollBounds(y: int)
      requires Valid()
      modifies this
      ensures Valid()
      ensures SessionOf() == old(SessionOf()).(bounds := AdjustBounds(y, height, old(SessionOf().bounds)))
      ensures WidgetOf() == old(WidgetOf()) && OverlayOf() == old(OverlayOf()) && events == old(events)
    {
      AdjustStaysWithinThirds(y, height, Bounds(upperBound, lowerBound));
      if y >= height / 3 {
        upperBound := height / 3;
      }
      if y <= height * 2 / 3 {
        lowerBound := height * 2 / 3;
      }
    }

    /** doExpansion: restyle every visible draggable row for the current
        origin and target. */
    method DoExpansion()
      modifies rows
      ensures rows[..] == Expanded(old(rows[..]), firstVisible, dragPos, firstDragPos, itemCount, heights)
    {
      var actualDragPos := dragPos - firstVisible;
      if dragPos > firstDragPos {
        actualDragPos := actualDragPos + 1;
      }
      var originIndex := firstDragPos - firstVisible;
      var i := 0;
      while i < rows.Length
        invariant 0 <= i <= rows.Length
        invariant forall j :: 0 <= j < i ==>
          rows[j] == ExpandedRow(j, old(rows[j]), firstVisible, dragPos, firstDragPos, itemCount, heights)
        invariant forall j :: i <= j < rows.Length ==> rows[j] == old(rows[j])
      {
        var h := heights.normal;
        var visible := true;
        if i == originIndex {
          if dragPos == firstDragPos {
            visible := false;
          } else {
            h := 1;
          }
        } else if i == actualDragPos {
          if dragPos < itemCount - 1 {
            h := heights.expanded;
          }
        }
        if Draggable(rows[i]) {
          rows[i] := rows[i].(height := h, visible := visible);
        }
        i := i + 1;
      }
    }

    /** unExpandViews: every draggable row back to normal height and
        visible; after a removal the adapter is re-attached at the first
        visible row's top, which throws when there is no child at all. */
    method UnExpandViews(deletion: bool) returns (threw: bool)
      requires Valid()
      modifies this, rows
      ensures Valid()
      ensures rows[..] == Restored(old(rows[..]), heights.normal)
      ensures threw == (deletion && rows.Length == 0)
      ensures events == old(events) + ReattachAfter(deletion, firstVisible, rows[..])
      ensures WidgetOf() == old(WidgetOf()) && SessionOf() == old(SessionOf()) && OverlayOf() == old(OverlayOf())
    {
      var i := 0;
      while i < rows.Length
        invariant 0 <= i <= rows.Length
        invariant forall j :: 0 <= j < i ==> rows[j] == Restyle(old(rows[j]), heights.normal, true)
        invariant forall j :: i <= j < rows.Length ==> rows[j] == old(rows[j])
        modifies rows
      {
        if Draggable(rows[i]) {
          rows[i] := rows[i].(height := heights.normal, visible := true);
        }
        i := i + 1;
      }
      threw := false;
      if deletion {
        if rows.Length == 0 {
          threw := true;
        } else {
          events := events + [Reattach(firstVisible, rows[0].hit.top)];
        }
      }
    }

    /** stopDragging: remove the drag image and recycle its bitmap. A
        removed image is never drawn, so its deferred expansion never runs.
        Stopping twice is stopping once. */
    method StopDragging()
      requires Valid()
      modifies this
      ensures Valid()
      ensures OverlayOf() == old(OverlayOf()).(shown := false, bitmap := false,
                                               firstDrawPending := old(firstDrawPending && !dragView))
      ensures WidgetOf() == old(WidgetOf()) && SessionOf() == old(SessionOf()) && events == old(events)
    {
      if dragView {
        dragView := false;
        firstDrawPending := false;
      }
      if dragBitmap {
        dragBitmap := false;
      }
    }

    /** startDragging: replace any drag image by a new one holding the
        row's bitmap, placed at the finger less the grab offset, whose first
        draw will run the expansion. */
    method StartDragging(y: int, width: nat)
      requires Valid()
      modifies this
      ensures Valid()
      ensures OverlayOf() == Overlay(true, true, true, y - dragPoint + coordOffset, width)
      ensures WidgetOf() == old(WidgetOf()) && SessionOf() == old(SessionOf()) && events == old(events)
    {
      StopDragging();
      overlayY := y - dragPoint + coordOffset;
      overlayWidth := width;
      firstDrawPending := true;
      dragBitmap := true;
      dragView := true;
    }

    /** The drag image's first draw runs the deferred expansion, once. */
    method OnOverlayDrawn()
      requires Valid()
      modifies this, rows
      ensures Valid()
      ensures !firstDrawPending
      ensures rows[..] == if old(firstDrawPending)
                          then Expanded(old(rows[..]), firstVisible, dragPos, firstDragPos, itemCount, heights)
                          else old(rows[..])
      ensures WidgetOf() == old(WidgetOf()) && SessionOf() == old(SessionOf()) && events == old(events)
      ensures OverlayOf() == old(OverlayOf()).(firstDrawPending := false)
    {
      if firstDrawPending {
        DoExpansion();
        firstDrawPending := false;
      }
    }

    /** The position a touch event presses, as far as the drag code is
        concerned: a DOWN, with a drag or drop listener set, on a row the
        list's own probe finds. */
    function PressedAt(ev: MotionEvent): (p: int)
      reads this, rows
      ensures p == INVALID_POSITION || firstVisible <= p < firstVisible + rows.Length
    {
      if (hasDragListener || hasDropListener) && ev.action == Down
      then PositionAt(rows[..], firstVisible, ev.x, ev.y, true)
      else INVALID_POSITION
    }

    /** What a press on position p does. On a row without a grab handle,
        nothing. On a draggable row the grab offset and the screen offset are
        taken; outside the handle the list then forgets its drag image
        (without removing it), and inside the handle a drag begins. */
    ghost predicate Pressed(p: int, ev: MotionEvent, d: Dispatch, s0: Session, o0: Overlay)
      reads this, rows
      requires 0 <= p - firstVisible < rows.Length && Contains(rows[p - firstVisible].hit, ev.x, ev.y)
    {
      var row := rows[p - firstVisible];
      if !Draggable(row) then
        d == Deferred && SessionOf() == s0 && OverlayOf() == o0
      else if !InGrabber(row, ev.x) then
        && d == Deferred
        && SessionOf() == s0.(dragPoint := ev.y - row.hit.top, coordOffset := ev.rawY - ev.y)
        && OverlayOf() == o0.(shown := false)
      else
        d == Returned(false) && Began(p, ev)
    }

    /** A drag begun at position p by a press at ev: target and origin are p,
        the bounds are those of a drag starting at the press, the list's
        height is captured, and a new drag image of the row's width shows the
        row under the finger, its expansion deferred to its first draw. */
    ghost predicate Began(p: int, ev: MotionEvent)
      reads this, rows
      requires 0 <= p - firstVisible < rows.Length && Contains(rows[p - firstVisible].hit, ev.x, ev.y)
    {
      var row := rows[p - firstVisible];
      && SessionOf() == Session(p, p, ev.y - row.hit.top, ev.rawY - ev.y,
                                StartBounds(ev.y, touchSlop, viewHeight), viewHeight)
      && OverlayOf() == Overlay(true, true, true, ev.y - dragPoint + coordOffset,
                                row.hit.right - row.hit.left)
    }

    /** onInterceptTouchEvent. It creates the fling detector when a remove
        listener is set in fling mode, and hands a pressed row to PressRow. A
        drag begins exactly when a DOWN, with a drag or drop listener set,
        grabs a row's handle; the event is then not intercepted. */
    method OnInterceptTouchEvent(ev: MotionEvent) returns (d: Dispatch)
      requires Valid()
      modifies this
      ensures Valid() && events == old(events)
      ensures WidgetOf() == old(WidgetOf()).(detector := old(hasGestureDetector) ||
                                             (hasRemoveListener && removeMode == Fling))
      ensures PressedAt(ev) == INVALID_POSITION ==>
        d == Deferred && SessionOf() == old(SessionOf()) && OverlayOf() == old(OverlayOf())
      ensures PressedAt(ev) != INVALID_POSITION ==>
        Pressed(PressedAt(ev), ev, d, old(SessionOf()), old(OverlayOf()))
      ensures d == Returned(false) <==>
        (hasDragListener || hasDropListener) && ev.action == Down &&
        GrabAt(rows[..], firstVisible, ev.x, ev.y) != INVALID_POSITION
    {
      CreateDetector();
      d := Deferred;
      if (hasDragListener || hasDropListener) && ev.action == Down {
        var itemnum := PositionAt(rows[..], firstVisible, ev.x, ev.y, true);
        if itemnum != INVALID_POSITION {
          d := PressRow(itemnum, ev);
        }
      }
    }

    /** The fling detector is created on the first intercepted event after a
        remove listener is set in fling mode. */
    method CreateDetector()
      requires Valid()
      modifies this
      ensures Valid() && events == old(events)
      ensures WidgetOf() == old(WidgetOf()).(detector := old(hasGestureDetector) ||
                                             (hasRemoveListener && removeMode == Fling))
      ensures SessionOf() == old(SessionOf()) && OverlayOf() == old(OverlayOf())
    {
      if hasRemoveListener && !hasGestureDetector {
        if removeMode == Fling {
          hasGestureDetector := true;
        }
      }
    }

    /** The DOWN branch of onInterceptTouchEvent once a row is found. */
    method PressRow(itemnum: int, ev: MotionEvent) returns (d: Dispatch)
      requires Valid() && 0 <= itemnum - firstVisible < rows.Length
      requires Contains(rows[itemnum - firstVisible].hit, ev.x, ev.y)
      modifies this
      ensures Valid() && events == old(events) && WidgetOf() == old(WidgetOf())
      ensures Pressed(itemnum, ev, d, old(SessionOf()), old(OverlayOf()))
      ensures d == Returned(false) <==>
        Draggable(rows[itemnum - firstVisible]) && InGrabber(rows[itemnum - firstVisible], ev.x)
    {
      var item := rows[itemnum - firstVisible];
      d := Deferred;
      if Draggable(item) {
        dragPoint := ev.y - item.hit.top;
        coordOffset := ev.rawY - ev.y;
        var r := item.grabber.value;
        if r.left < ev.x && ev.x < r.right {
          BeginDrag(itemnum, ev.y, item.hit.right - item.hit.left);
          return Returned(false);
        }
        dragView := false;
      }
    }

    /** The start of a drag at position itemnum, pressed at height y. */
    method BeginDrag(itemnum: int, y: int, width: nat)
      requires Valid() && 0 <= itemnum
      modifies this
      ensures Valid() && events == old(events) && WidgetOf() == old(WidgetOf())
      ensures SessionOf() == old(SessionOf()).(dragPos := itemnum, firstDragPos := itemnum,
                                               bounds := StartBounds(y, touchSlop, viewHeight),
                                               height := viewHeight)
      ensures OverlayOf() == Overlay(true, true, true, y - dragPoint + coordOffset, width)
    {
      StartDragging(y, width);
      dragPos := itemnum;
      firstDragPos := dragPos;
      height := viewHeight;
      var b := StartBounds(y, touchSlop, height);
      upperBound := b.upper;
      lowerBound := b.lower;
    }

    /** A fling would remove the dragged row on this event. */
    predicate FlingFires(fling: Option<int>, x: int)
      reads this
    {
      hasGestureDetector && fling.Some? && dragView && FlingRemoves(fling.value, x, overlayWidth)
    }

    /** The effect of onFling when it removes: the drag image is gone, the
        remove listener is called with the origin and the rows are restored;
        with no remove listener set the call throws before the rows are
        restored. */
    twostate predicate FlungAway(threw: bool)
      reads this, rows
    {
      && !dragView && !dragBitmap && !firstDrawPending
      && overlayY == old(overlayY) && overlayWidth == old(overlayWidth)
      && WidgetOf() == old(WidgetOf()) && SessionOf() == old(SessionOf())
      && if hasRemoveListener then
           && rows[..] == Restored(old(rows[..]), heights.normal)
           && events == old(events) + [Remove(firstDragPos)] + ReattachAfter(true, firstVisible, rows[..])
           && threw == (rows.Length == 0)
         else
           rows[..] == old(rows[..]) && events == old(events) && threw
    }

    /** The release of a drag (UP or CANCEL alike): the drag image is gone,
        the release's listener call is made, the rows are restored, and after
        a removal the adapter is re-attached. */
    twostate predicate Released(x: int, threw: bool)
      reads this, rows
    {
      && !dragView && !dragBitmap && !firstDrawPending
      && overlayY == old(overlayY) && overlayWidth == old(overlayWidth)
      && WidgetOf() == old(WidgetOf()) && SessionOf() == old(SessionOf())
      && rows[..] == Restored(old(rows[..]), heights.normal)
      && var removed := SlideRemoves(removeMode, x, overlayWidth);
         && events == old(events)
                      + ReleaseCallbacks(removeMode, x, overlayWidth, hasRemoveListener, hasDropListener,
                                         firstDragPos, dragPos, itemCount)
                      + ReattachAfter(removed, firstVisible, rows[..])
         && threw == (removed && rows.Length == 0)
    }

    /** A drag step (DOWN or MOVE) at y: the drag image follows the finger;
        when the step aims at a target the drag follows it there, and when it
        aims at nothing nothing else changes. */
    twostate predicate Stepped(isDown: bool, y: int)
      reads this, rows
    {
      && OverlayOf() == old(OverlayOf()).(y := y - dragPoint + coordOffset)
      && WidgetOf() == old(WidgetOf())
      && var t := ItemForPosition(old(rows[..]), firstVisible, firstDragPos, dragPoint, heights.normal, y);
         if t < 0 then
           SessionOf() == old(SessionOf()) && rows[..] == old(rows[..]) && events == old(events)
         else
           Followed(isDown, t, y)
    }

    /** The drag follows a step at y to target t: the target becomes t; if
        it changed, or on DOWN, the drag listener hears of it, and on MOVE
        the rows are restyled for it; the bounds are adjusted and a scroll is
        requested at the speed they give. */
    twostate predicate Followed(isDown: bool, t: int, y: int)
      reads this, rows
    {
      && SessionOf() == old(SessionOf()).(dragPos := t, bounds := AdjustBounds(y, height, old(SessionOf().bounds)))
      && var moved := isDown || t != old(dragPos);
         && rows[..] == (if moved && !isDown
                         then Expanded(old(rows[..]), firstVisible, t, firstDragPos, itemCount, heights)
                         else old(rows[..]))
         && events == old(events)
                      + (if moved && hasDragListener then [Drag(old(dragPos), t)] else [])
                      + ScrollRequest(rows[..], firstVisible, height, dividerHeight,
                                      Speed(y, height, Bounds(upperBound, lowerBound)))
    }

    /** The onFling handler of the gesture detector. */
    method OnFling(velocityX: int, x: int) returns (threw: bool)
      requires Valid()
      modifies this, rows
      ensures Valid()
      ensures old(dragView && FlingRemoves(velocityX, x, overlayWidth)) ==> FlungAway(threw)
      ensures !old(dragView && FlingRemoves(velocityX, x, overlayWidth)) ==>
        !threw && WidgetOf() == old(WidgetOf()) && SessionOf() == old(SessionOf()) &&
        OverlayOf() == old(OverlayOf()) && rows[..] == old(rows[..]) && events == old(events)
    {
      threw := false;
      if dragView {
        if velocityX > 1000 {
          if x > overlayWidth * 2 / 3 {
            StopDragging();
            if hasRemoveListener {
              events := events + [Remove(firstDragPos)];
              threw := UnExpandViews(true);
            } else {
              threw := true;
            }
          }
        }
      }
    }

    /** onTouchEvent, UP and CANCEL branch. */
    method Release(x: int) returns (threw: bool)
      requires Valid() && dragView
      modifies this, rows
      ensures Valid()
      ensures Released(x, threw)
    {
      var width := overlayWidth;
      StopDragging();
      if removeMode == SlideRight && x > width * 3 / 4 {
        if hasRemoveListener {
          events := events + [Remove(firstDragPos)];
        }
        threw := UnExpandViews(true);
      } else if removeMode == SlideLeft && x < width / 4 {
        if hasRemoveListener {
          events := events + [Remove(firstDragPos)];
        }
        threw := UnExpandViews(true);
      } else {
        if hasDropListener && dragPos >= 0 && dragPos < itemCount {
          events := events + [Drop(firstDragPos, dragPos)];
        }
        threw := UnExpandViews(false);
      }
    }

    /** A drag step's new target t: the drag listener hears of a change (or
        of any target on DOWN), and on MOVE the rows are restyled for it. */
    method Retarget(isDown: bool, t: int)
      requires Valid() && 0 <= t
      modifies this, rows
      ensures Valid()
      ensures SessionOf() == old(SessionOf()).(dragPos := t)
      ensures WidgetOf() == old(WidgetOf()) && OverlayOf() == old(OverlayOf())
      ensures var moved := isDown || t != old(dragPos);
        && rows[..] == (if moved && !isDown
                        then Expanded(old(rows[..]), firstVisible, t, firstDragPos, itemCount, heights)
                        else old(rows[..]))
        && events == old(events) + (if moved && hasDragListener then [Drag(old(dragPos), t)] else [])
    {
      if isDown || t != dragPos {
        if hasDragListener {
          events := events + [Drag(dragPos, t)];
        }
        dragPos := t;
        if !isDown {
          DoExpansion();
        }
      }
    }

    /** The part of a drag step that follows a target t. */
    method Follow(isDown: bool, t: int, y: int)
      requires Valid() && 0 <= t
      modifies this, rows
      ensures Valid()
      ensures WidgetOf() == old(WidgetOf()) && OverlayOf() == old(OverlayOf())
      ensures Followed(isDown, t, y)
    {
      Retarget(isDown, t);
      ghost var restyled := rows[..];
      AdjustScrollBounds(y);
      assert rows[..] == restyled;
      var speed := Speed(y, height, Bounds(upperBound, lowerBound));
      events := events + ScrollRequest(rows[..], firstVisible, height, dividerHeight, speed);
    }

    /** onTouchEvent, DOWN and MOVE branch. */
    method Step(isDown: bool, x: int, y: int)
      requires Valid() && dragView
      modifies this, rows
      ensures Valid()
      ensures Stepped(isDown, y)
    {
      overlayY := y - dragPoint + coordOffset;
      var itemnum := GetItemForPosition(y);
      if itemnum >= 0 {
        Follow(isDown, itemnum, y);
      }
    }

    /** onTouchEvent. The gesture detector sees the event first; `fling` is
        the horizontal velocity of the fling it recognises on this event, if
        any. A fling that does not remove the row changes nothing, so the
        model calls OnFling only for one that does. Then an active drag
        handles the event and consumes it; without one the event goes to the
        plain ListView handler. */
    method OnTouchEvent(ev: MotionEvent, fling: Option<int>) returns (d: Dispatch)
      requires Valid()
      modifies this, rows
      ensures Valid()
      ensures old(FlingFires(fling, ev.x)) ==>
        exists threw :: FlungAway(threw) && d == (if threw then NullPointer else Deferred)
      ensures !old(FlingFires(fling, ev.x)) && !old(DragActive()) ==>
        d == Deferred && WidgetOf() == old(WidgetOf()) && SessionOf() == old(SessionOf()) &&
        OverlayOf() == old(OverlayOf()) && rows[..] == old(rows[..]) && events == old(events)
      ensures !old(FlingFires(fling, ev.x)) && old(DragActive()) ==> Handled(ev, d)
    {
      if FlingFires(fling, ev.x) {
        var threw := OnFling(fling.value, ev.x);
        if threw {
          return NullPointer;
        }
      }
      if (hasDragListener || hasDropListener) && dragView {
        d := HandleDrag(ev);
        return;
      }
      return Deferred;
    }

    /** How an active drag handles a touch event: UP and CANCEL release it,
        DOWN and MOVE step it, and any other action leaves everything as it
        was; each consumes the event unless the release throws. */
    twostate predicate Handled(ev: MotionEvent, d: Dispatch)
      reads this, rows
    {
      match ev.action
      case Up | Cancel => exists threw :: Released(ev.x, threw) && d == (if threw then NullPointer else Returned(true))
      case Down | Move => Stepped(ev.action == Down, ev.y) && d == Returned(true)
      case OtherAction =>
        d == Returned(true) && WidgetOf() == old(WidgetOf()) && SessionOf() == old(SessionOf()) &&
        OverlayOf() == old(OverlayOf()) && rows[..] == old(rows[..]) && events == old(events)
    }

    /** The drag branch of onTouchEvent. */
    method HandleDrag(ev: MotionEvent) returns (d: Dispatch)
      requires Valid() && dragView
      modifies this, rows
      ensures Valid()
      ensures Handled(ev, d)
    {
      match ev.action {
        case Up =>
          var threw := Release(ev.x);
          d := if threw then NullPointer else Returned(true);
          assert Released(ev.x, threw);
        case Cancel =>
          var threw := Release(ev.x);
          d := if threw then NullPointer else Returned(true);
          assert Released(ev.x, threw);
        case Down =>
          Step(true, ev.x, ev.y);
          d := Returned(true);
        case Move =>
          Step(false, ev.x, ev.y);
          d := Returned(true);
        case OtherAction =>
          d := Returned(true);
      }
    }
  }
}
