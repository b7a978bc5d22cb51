/** Integer geometry shared by the drag-and-drop list: rectangles, the visible
    row snapshot, and Java's truncating integer division. */
module Geometry {

  datatype Option<T> = None | Some(value: T)

  /** AdapterView.INVALID_POSITION */
  const INVALID_POSITION: int := -1

  function Min(a: int, b: int): (m: int)
    ensures m <= a && m <= b && (m == a || m == b)
  {
    if a <= b then a else b
  }

  function Max(a: int, b: int): (m: int)
    ensures m >= a && m >= b && (m == a || m == b)
  {
    if a >= b then a else b
  }

  /** Java's `a / b` on ints: the quotient is truncated toward zero, so for a
      negative dividend it is rounded up, unlike Dafny's Euclidean `/`. */
  function JavaDiv(a: int, b: int): (q: int)
    requires b > 0
    ensures a >= 0 ==> 0 <= q && q * b <= a < q * b + b
    ensures a < 0 ==> q <= 0 && q * b - b < a <= q * b
  {
    if a >= 0 then
      var q := a / b;
      assert a == q * b + a % b && 0 <= a % b < b;
      q
    else
      var n := (-a) / b;
      assert -a == n * b + (-a) % b && 0 <= (-a) % b < b;
      assert (-n) * b == -(n * b);
      -n
  }

  /** android.graphics.Rect, in the parent's coordinates. */
  datatype Rect = Rect(left: int, top: int, right: int, bottom: int)

  /** Rect.contains(x, y): the rectangle is non-empty and the point lies in
      it, left and top edges included, right and bottom edges excluded. */
  predicate Contains(r: Rect, x: int, y: int)
  {
    r.left < r.right && r.top < r.bottom &&
    r.left <= x < r.right && r.top <= y < r.bottom
  }

  /** One laid-out child of the list: its hit rectangle, the rectangle of its
      grab handle when it has one (findViewById(grabberId) != null), the
      height its LayoutParams ask for and whether it is VISIBLE. */
  datatype Row = Row(hit: Rect, grabber: Option<Rect>, height: int, visible: bool)

  /** isDraggableRow: the row contains a view with the grabber id. */
  predicate Draggable(row: Row)
  {
    row.grabber.Some?
  }

  /** Set a row's height and visibility, as the restyling loops do, but only
      when the row is draggable; other rows are never touched. */
  function Restyle(row: Row, height: int, visible: bool): (r: Row)
    ensures r.hit == row.hit && r.grabber == row.grabber
    ensures Draggable(row) ==> r.height == height && r.visible == visible
    ensures !Draggable(row) ==> r == row
  {
    if Draggable(row) then row.(height := height, visible := visible) else row
  }
}
