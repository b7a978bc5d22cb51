/** getItemForPosition: which list position a drag at height y is aiming at. */
module DragTarget {
  import opened Geometry
  import opened HitTest

  /** The point probed for a drag at y: the finger height, less the grab
      offset inside the row, less half a normal row height, so that the probe
      sits at the middle of where the dragged row would land. */
  function AdjustedY(y: int, dragPoint: int, normalHeight: int): int
  {
    y - dragPoint - JavaDiv(normalHeight, 2)
  }

  /** TouchListView.getItemForPosition: probe every row (hidden ones too) at
      x = 0; a hit at or above the origin counts one further down, because
      the dragged row still holds its own slot; a miss above the top of the
      list aims at position 0; any other miss is INVALID_POSITION. */
  function ItemForPosition(rows: seq<Row>, first: nat, firstDragPos: int, dragPoint: int,
                           normalHeight: int, y: int): (r: int)
    ensures r == INVALID_POSITION || 0 <= r <= first + |rows|
  {
    var ay := AdjustedY(y, dragPoint, normalHeight);
    var pos := PositionAt(rows, first, 0, ay, false);
    if pos >= 0 then
      if pos <= firstDragPos then pos + 1 else pos
    else if ay < 0 then 0
    else pos
  }

  /** A hit on child k (the topmost child containing the probe) aims at its
      position, one further when that position is at or above the origin; in
      particular any hit aims at a position of at least 1. */
  lemma TargetOnHit(rows: seq<Row>, first: nat, firstDragPos: int, dragPoint: int,
                    normalHeight: int, y: int, k: int)
    requires 0 <= firstDragPos
    requires 0 <= k < |rows| && Contains(rows[k].hit, 0, AdjustedY(y, dragPoint, normalHeight))
    requires forall j :: k < j < |rows| ==> !Contains(rows[j].hit, 0, AdjustedY(y, dragPoint, normalHeight))
    ensures ItemForPosition(rows, first, firstDragPos, dragPoint, normalHeight, y)
            == if first + k <= firstDragPos then first + k + 1 else first + k
    ensures ItemForPosition(rows, first, firstDragPos, dragPoint, normalHeight, y) >= 1
  {
    PositionAtUnique(rows, first, 0, AdjustedY(y, dragPoint, normalHeight), false, k);
  }

  /** When no child contains the probe, the drag aims at position 0 if the
      probe is above the list's top edge and at nothing otherwise. */
  lemma TargetOnMiss(rows: seq<Row>, first: nat, firstDragPos: int, dragPoint: int,
                     normalHeight: int, y: int)
    requires forall j :: 0 <= j < |rows| ==> !Contains(rows[j].hit, 0, AdjustedY(y, dragPoint, normalHeight))
    ensures ItemForPosition(rows, first, firstDragPos, dragPoint, normalHeight, y)
            == if AdjustedY(y, dragPoint, normalHeight) < 0 then 0 else INVALID_POSITION
  {
    assert forall j :: 0 <= j < |rows| ==> !Hits(rows[j], 0, AdjustedY(y, dragPoint, normalHeight), false);
  }

  /** Rows laid out top to bottom without overlapping. */
  ghost predicate Stacked(rows: seq<Row>)
  {
    forall i, j :: 0 <= i < j < |rows| ==> rows[i].hit.bottom <= rows[j].hit.top
  }

  /** For one layout, dragging further down never aims higher: if the lower
      drag point hits a row, its target is at least the upper one's (which
      may be a hit or position 0 above the list). Probes that fall in a gap
      below the top edge aim at nothing and leave the target as it was. */
  lemma {:induction false} TargetMonotonic(rows: seq<Row>, first: nat, firstDragPos: int,
                                           dragPoint: int, normalHeight: int, y1: int, y2: int)
    requires Stacked(rows) && 0 <= firstDragPos && y1 <= y2
    requires ItemForPosition(rows, first, firstDragPos, dragPoint, normalHeight, y1) >= 0
    requires PositionAt(rows, first, 0, AdjustedY(y2, dragPoint, normalHeight), false) != INVALID_POSITION
    ensures ItemForPosition(rows, first, firstDragPos, dragPoint, normalHeight, y1)
            <= ItemForPosition(rows, first, firstDragPos, dragPoint, normalHeight, y2)
  {
    var a1 := AdjustedY(y1, dragPoint, normalHeight);
    var a2 := AdjustedY(y2, dragPoint, normalHeight);
    var p1 := PositionAt(rows, first, 0, a1, false);
    var p2 := PositionAt(rows, first, 0, a2, false);
    if p1 != INVALID_POSITION {
      var k1, k2 := p1 - first, p2 - first;
      if k1 > k2 {
        assert false;
      }
    }
  }

  /** Monotonicity needs the lower probe to hit: with one row over [0, 100)
      and the origin at position 0, a drag at 50 aims at position 1 but a
      drag further down at 150, below the last row, aims at nothing. */
  lemma DragBelowLastRowAimsAtNothing()
    ensures var rows := [Row(Rect(0, 0, 480, 100), Some(Rect(400, 0, 480, 100)), 100, true)];
            ItemForPosition(rows, 0, 0, 0, 0, 50) == 1 &&
            ItemForPosition(rows, 0, 0, 0, 0, 150) == INVALID_POSITION
  {
    var rows := [Row(Rect(0, 0, 480, 100), Some(Rect(400, 0, 480, 100)), 100, true)];
    TargetOnHit(rows, 0, 0, 0, 0, 50, 0);
    TargetOnMiss(rows, 0, 0, 0, 0, 150);
  }

  /** A drag whose probe lands on child 1 while the origin is position 3
      aims at position 2. */
  lemma HitAboveOriginShiftsDown()
    ensures var row := (t: int) => Row(Rect(0, t, 480, t + 100), Some(Rect(400, 0, 480, 100)), 100, true);
            ItemForPosition([row(0), row(100), row(200), row(300)], 0, 3, 0, 100, 200) == 2
  {
    var row := (t: int) => Row(Rect(0, t, 480, t + 100), Some(Rect(400, 0, 480, 100)), 100, true);
    var rows := [row(0), row(100), row(200), row(300)];
    TargetOnHit(rows, 0, 3, 0, 100, 200, 1);
  }
}
