/** The geometry probe: which list position lies under a point. Children are
    scanned back to front, so where hit rectangles overlap the child drawn on
    top (the one with the higher child index) wins. */
module HitTest {
  import opened Geometry

  /** Whether a row registers a hit at (x, y). myPointToPosition looks at
      every row; the list's own pointToPosition skips rows that are not
      VISIBLE, which is why the drag code needs its own version. */
  predicate Hits(row: Row, x: int, y: int, visibleOnly: bool)
  {
    (!visibleOnly || row.visible) && Contains(row.hit, x, y)
  }

  /** Index of the last child that registers a hit at (x, y), or -1. */
  function TopmostHit(rows: seq<Row>, x: int, y: int, visibleOnly: bool): (k: int)
    ensures -1 <= k < |rows|
    ensures k >= 0 ==> Hits(rows[k], x, y, visibleOnly)
    ensures forall j :: k < j < |rows| ==> !Hits(rows[j], x, y, visibleOnly)
    decreases |rows|
  {
    if |rows| == 0 then -1
    else if Hits(rows[|rows| - 1], x, y, visibleOnly) then |rows| - 1
    else TopmostHit(rows[..|rows| - 1], x, y, visibleOnly)
  }

  /** The adapter position under (x, y): the first visible position plus the
      child index of the topmost hit, or INVALID_POSITION when no child
      registers a hit. */
  function PositionAt(rows: seq<Row>, first: nat, x: int, y: int, visibleOnly: bool): (p: int)
    ensures p == INVALID_POSITION || first <= p < first + |rows|
    ensures p == INVALID_POSITION <==> forall j :: 0 <= j < |rows| ==> !Hits(rows[j], x, y, visibleOnly)
    ensures p != INVALID_POSITION ==>
      Hits(rows[p - first], x, y, visibleOnly) &&
      forall j :: p - first < j < |rows| ==> !Hits(rows[j], x, y, visibleOnly)
  {
    var k := TopmostHit(rows, x, y, visibleOnly);
    if k < 0 then INVALID_POSITION else first + k
  }

  /** The scan has exactly one answer: a child that hits with nothing above
      it hitting is the one PositionAt names. */
  lemma PositionAtUnique(rows: seq<Row>, first: nat, x: int, y: int, visibleOnly: bool, i: int)
    requires 0 <= i < |rows| && Hits(rows[i], x, y, visibleOnly)
    requires forall j :: i < j < |rows| ==> !Hits(rows[j], x, y, visibleOnly)
    ensures PositionAt(rows, first, x, y, visibleOnly) == first + i
  {
  }
}
