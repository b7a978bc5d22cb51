/** The scroll regulator: the band of the list in which a drag does not
    scroll, how that band moves during a drag, and how fast the list scrolls
    when the finger is outside it. */
module ScrollRegulator {
  import opened Geometry

  /** mUpperBound and mLowerBound: a drag above `upper` scrolls the list
      down, a drag below `lower` scrolls it up. */
  datatype Bounds = Bounds(upper: int, lower: int)

  /** The bounds never reach into the middle third of a list `height` pixels
      high. */
  predicate WithinThirds(height: nat, b: Bounds)
  {
    b.upper <= height / 3 && b.lower >= height * 2 / 3
  }

  /** The bounds a drag starts with, at finger height y: the touch slop around
      the finger, widened to at least the middle third of the list. */
  function StartBounds(y: int, slop: int, height: nat): (b: Bounds)
    ensures WithinThirds(height, b)
    ensures b.upper <= y - slop && b.lower >= y + slop
  {
    Bounds(Min(y - slop, height / 3), Max(y + slop, height * 2 / 3))
  }

  /** adjustScrollBounds: once the finger reaches the middle third from
      above, the upper bound becomes height/3; once it is at or above 2/3 of
      the height, the lower bound becomes 2*height/3. */
  function AdjustBounds(y: int, height: nat, b: Bounds): (r: Bounds)
    ensures r.upper == b.upper || r.upper == height / 3
    ensures r.lower == b.lower || r.lower == height * 2 / 3
  {
    Bounds(if y >= height / 3 then height / 3 else b.upper,
           if y <= height * 2 / 3 then height * 2 / 3 else b.lower)
  }

  /** The scroll step for a drag at y: nothing between the bounds; 4 pixels
      just past a bound and 16 pixels well past it, positive below the lower
      bound and negative above the upper bound. */
  function Speed(y: int, height: nat, b: Bounds): (r: int)
    ensures r > 0 <==> y > b.lower
    ensures r < 0 <==> y <= b.lower && y < b.upper
    ensures r == 4 || r == 16 || r == -4 || r == -16 || r == 0
  {
    if y > b.lower then
      if y > JavaDiv(height + b.lower, 2) then 16 else 4
    else if y < b.upper then
      if y < JavaDiv(b.upper, 2) then -16 else -4
    else 0
  }

  /** A drag starting at height 150 in a list 300 high, with a touch slop of
      10, starts with the bounds [100, 200]. */
  lemma StartBoundsExample()
    ensures StartBounds(150, 10, 300) == Bounds(100, 200)
  {
  }

  /** Adjusting keeps the bounds out of the middle third and only moves them
      toward it: the upper bound can only grow (move down the screen), to
      height/3 at most, and the lower bound can only shrink (move up the
      screen), to 2*height/3 at least. */
  lemma AdjustStaysWithinThirds(y: int, height: nat, b: Bounds)
    requires WithinThirds(height, b)
    ensures WithinThirds(height, AdjustBounds(y, height, b))
    ensures b.upper <= AdjustBounds(y, height, b).upper
    ensures AdjustBounds(y, height, b).lower <= b.lower
  {
  }

  /** Adjusting twice at the same finger height changes nothing more. */
  lemma AdjustIdempotent(y: int, height: nat, b: Bounds)
    ensures AdjustBounds(y, height, AdjustBounds(y, height, b)) == AdjustBounds(y, height, b)
  {
  }

  /** With the upper bound not below the lower one, the list scrolls exactly
      when the finger is outside the bounds, up-screen content when below the
      lower bound and down-screen when above the upper bound, by 4 or 16. */
  lemma SpeedSign(y: int, height: nat, b: Bounds)
    requires b.upper <= b.lower
    ensures Speed(y, height, b) == 0 <==> b.upper <= y <= b.lower
    ensures Speed(y, height, b) > 0 <==> y > b.lower
    ensures Speed(y, height, b) < 0 <==> y < b.upper
    ensures Speed(y, height, b) in {-16, -4, 0, 4, 16}
  {
  }

  /** The further past a bound the finger is, the faster the list scrolls. */
  lemma {:induction false} SpeedGrowsWithDistance(y1: int, y2: int, height: nat, b: Bounds)
    requires b.upper <= b.lower
    ensures b.lower < y1 <= y2 ==> Speed(y1, height, b) <= Speed(y2, height, b)
    ensures y1 <= y2 < b.upper ==> Speed(y1, height, b) <= Speed(y2, height, b)
  {
    if y1 <= y2 < b.upper {
      var half := JavaDiv(b.upper, 2);
      if y2 < half {
        assert y1 < half;
      }
    }
  }

  /** In the middle third the list never scrolls, whatever the bounds were:
      adjusting at that height opens the bounds around the finger. */
  lemma NoScrollInMiddleThird(y: int, height: nat, b: Bounds)
    requires height / 3 <= y <= height * 2 / 3
    ensures Speed(y, height, AdjustBounds(y, height, b)) == 0
  {
  }
}
