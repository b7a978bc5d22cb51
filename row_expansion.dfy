/** The row expansion engine: the height and visibility every visible row
    gets while a drag is under way (doExpansion), and the normal layout every
    row gets back afterwards (unExpandViews). */
module RowExpansion {
  import opened Geometry

  /** The configured row heights (mItemHeightNormal, mItemHeightExpanded). */
  datatype Heights = Heights(normal: int, expanded: int)

  /** Child index of the row where the drag started. */
  function OriginSlot(first: nat, firstDragPos: int): int
  {
    firstDragPos - first
  }

  /** Child index of the row that opens a gap: the target's child index, one
      further down when the target is below the origin, because the origin
      row still occupies its slot above. */
  function GapSlot(first: nat, dragPos: int, firstDragPos: int): int
  {
    dragPos - first + (if dragPos > firstDragPos then 1 else 0)
  }

  /** doExpansion's choice for child i. The origin row is made invisible at
      normal height when the drag hovers over its own slot, and otherwise
      shrunk to 1 pixel; the gap row is expanded unless the target is the
      last item; every other draggable row is normal and visible. */
  function ExpandedRow(i: int, row: Row, first: nat, dragPos: int, firstDragPos: int,
                       count: int, h: Heights): Row
  {
    if i == OriginSlot(first, firstDragPos) then
      if dragPos == firstDragPos then Restyle(row, h.normal, false) else Restyle(row, 1, true)
    else if i == GapSlot(first, dragPos, firstDragPos) && dragPos < count - 1 then
      Restyle(row, h.expanded, true)
    else
      Restyle(row, h.normal, true)
  }

  /** The visible rows after doExpansion. */
  function Expanded(rows: seq<Row>, first: nat, dragPos: int, firstDragPos: int,
                    count: int, h: Heights): (r: seq<Row>)
    ensures |r| == |rows|
    ensures forall i :: 0 <= i < |rows| ==> r[i] == ExpandedRow(i, rows[i], first, dragPos, firstDragPos, count, h)
  {
    seq(|rows|, i requires 0 <= i < |rows| => ExpandedRow(i, rows[i], first, dragPos, firstDragPos, count, h))
  }

  /** The visible rows after unExpandViews: every draggable row normal and
      visible. */
  function Restored(rows: seq<Row>, normal: int): (r: seq<Row>)
    ensures |r| == |rows|
    ensures forall i :: 0 <= i < |rows| ==> r[i] == Restyle(rows[i], normal, true)
  {
    seq(|rows|, i requires 0 <= i < |rows| => Restyle(rows[i], normal, true))
  }

  /** Expansion touches only draggable rows, and only their height and
      visibility. */
  lemma ExpansionFrame(rows: seq<Row>, first: nat, dragPos: int, firstDragPos: int,
                       count: int, h: Heights)
    ensures var r := Expanded(rows, first, dragPos, firstDragPos, count, h);
      forall i :: 0 <= i < |rows| ==>
        r[i].hit == rows[i].hit && r[i].grabber == rows[i].grabber &&
        (!Draggable(rows[i]) ==> r[i] == rows[i])
  {
  }

  /** Hovering over the origin's own slot opens no gap: every draggable row
      keeps the normal height, and the origin row is the only one hidden. */
  lemma HoverOverOrigin(rows: seq<Row>, first: nat, firstDragPos: int, count: int, h: Heights)
    ensures var r := Expanded(rows, first, firstDragPos, firstDragPos, count, h);
      forall i :: 0 <= i < |rows| && Draggable(rows[i]) ==>
        r[i].height == h.normal && (r[i].visible <==> i != OriginSlot(first, firstDragPos))
  {
  }

  /** Away from its own slot, every draggable row is visible and the origin
      row, when on screen, is collapsed to 1 pixel. */
  lemma HoverAwayFromOrigin(rows: seq<Row>, first: nat, dragPos: int, firstDragPos: int,
                            count: int, h: Heights)
    requires dragPos != firstDragPos
    ensures var r := Expanded(rows, first, dragPos, firstDragPos, count, h);
      (forall i :: 0 <= i < |rows| && Draggable(rows[i]) ==> r[i].visible) &&
      (0 <= OriginSlot(first, firstDragPos) < |rows| && Draggable(rows[OriginSlot(first, firstDragPos)]) ==>
         r[OriginSlot(first, firstDragPos)].height == 1)
  {
  }

  /** At most one draggable row is expanded, and only when the drag is away
      from its origin and its target is not the last item; it is the gap row
      below the insertion point. This is OnlyGapRowExpands read by height
      value, together with the origin row's 1 pixel or normal height; it
      needs the expanded height to differ from the normal one and from the
      collapsed 1 pixel, or "expanded" would not single out a row. */
  lemma {:induction false} AtMostOneExpanded(rows: seq<Row>, first: nat, dragPos: int,
                                             firstDragPos: int, count: int, h: Heights)
    requires h.expanded != h.normal && h.expanded != 1
    ensures var r := Expanded(rows, first, dragPos, firstDragPos, count, h);
      forall i :: 0 <= i < |rows| && Draggable(rows[i]) && r[i].height == h.expanded ==>
        i == GapSlot(first, dragPos, firstDragPos) && dragPos != firstDragPos && dragPos < count - 1
  {
    var r := Expanded(rows, first, dragPos, firstDragPos, count, h);
    forall i | 0 <= i < |rows| && Draggable(rows[i]) && r[i].height == h.expanded
      ensures i == GapSlot(first, dragPos, firstDragPos) && dragPos != firstDragPos && dragPos < count - 1
    {
      assert r[i] == ExpandedRow(i, rows[i], first, dragPos, firstDragPos, count, h);
      assert i != OriginSlot(first, firstDragPos);
    }
  }

  /** Whatever the configured heights (the default expanded height is the
      normal one), every draggable row other than the origin row and the gap
      row is normal and visible; the gap row, when it is not the origin row,
      is visible, and expanded exactly when the drag is away from its origin
      and the target is not the last item, normal otherwise. */
  lemma {:induction false} OnlyGapRowExpands(rows: seq<Row>, first: nat, dragPos: int,
                                             firstDragPos: int, count: int, h: Heights)
    ensures var r := Expanded(rows, first, dragPos, firstDragPos, count, h);
      var gap := GapSlot(first, dragPos, firstDragPos);
      var opens := dragPos != firstDragPos && dragPos < count - 1;
      (forall i :: 0 <= i < |rows| && Draggable(rows[i]) &&
                   i != OriginSlot(first, firstDragPos) && (i != gap || !opens) ==>
         r[i].height == h.normal && r[i].visible) &&
      (0 <= gap < |rows| && Draggable(rows[gap]) && gap != OriginSlot(first, firstDragPos) ==>
         r[gap].visible && r[gap].height == (if opens then h.expanded else h.normal)) &&
      (dragPos != firstDragPos ==> gap != OriginSlot(first, firstDragPos))
  {
    var r := Expanded(rows, first, dragPos, firstDragPos, count, h);
    var gap := GapSlot(first, dragPos, firstDragPos);
    if 0 <= gap < |rows| {
      assert r[gap] == ExpandedRow(gap, rows[gap], first, dragPos, firstDragPos, count, h);
    }
  }

  /** After unExpandViews every draggable row is normal and visible, and no
      other row has changed. */
  lemma RestoredIsNormal(rows: seq<Row>, normal: int)
    ensures var r := Restored(rows, normal);
      forall i :: 0 <= i < |rows| ==>
        (Draggable(rows[i]) ==> r[i].height == normal && r[i].visible) &&
        (!Draggable(rows[i]) ==> r[i] == rows[i])
  {
  }

  /** Restoring twice is restoring once. */
  lemma {:induction false} RestoreIdempotent(rows: seq<Row>, normal: int)
    ensures Restored(Restored(rows, normal), normal) == Restored(rows, normal)
  {
    var once := Restored(rows, normal);
    assert forall i :: 0 <= i < |rows| ==> Draggable(once[i]) == Draggable(rows[i]);
  }

  /** No expansion leaks past the drag: restoring after any expansion gives
      the same rows as restoring the rows the drag started from. */
  lemma {:induction false} RestoreUndoesExpansion(rows: seq<Row>, first: nat, dragPos: int,
                                                  firstDragPos: int, count: int, h: Heights)
    ensures Restored(Expanded(rows, first, dragPos, firstDragPos, count, h), h.normal)
            == Restored(rows, h.normal)
  {
    var e := Expanded(rows, first, dragPos, firstDragPos, count, h);
    assert forall i :: 0 <= i < |rows| ==> Draggable(e[i]) == Draggable(rows[i]);
  }

  /** The rows after a drag has moved over the targets in order, each MOVE
      restyling the rows the previous one left. */
  function ExpandedThrough(rows: seq<Row>, first: nat, targets: seq<int>, firstDragPos: int,
                           count: int, h: Heights): (r: seq<Row>)
    ensures |r| == |rows|
    decreases |targets|
  {
    if |targets| == 0 then rows
    else Expanded(ExpandedThrough(rows, first, targets[..|targets| - 1], firstDragPos, count, h),
                  first, targets[|targets| - 1], firstDragPos, count, h)
  }

  /** However many moves a drag makes, releasing it leaves the rows as
      restoring the rows it started from would. */
  lemma {:induction false} RestoreUndoesDrag(rows: seq<Row>, first: nat, targets: seq<int>,
                                             firstDragPos: int, count: int, h: Heights)
    ensures Restored(ExpandedThrough(rows, first, targets, firstDragPos, count, h), h.normal)
            == Restored(rows, h.normal)
    decreases |targets|
  {
    if |targets| > 0 {
      var before := ExpandedThrough(rows, first, targets[..|targets| - 1], firstDragPos, count, h);
      RestoreUndoesExpansion(before, first, targets[|targets| - 1], firstDragPos, count, h);
      RestoreUndoesDrag(rows, first, targets[..|targets| - 1], firstDragPos, count, h);
    }
  }
}
