/**
 * The axis-aligned bounding-box test of checkCollisions. Rectangles are in
 * container coordinates with y growing downwards (top < bottom), as the
 * browser reports them.
 */
module Collision {

  datatype Rect = Rect(left: real, right: real, top: real, bottom: real)

  /** Overlap along the horizontal axis; strict, so shared edges do not count. */
  predicate XOverlap(p: Rect, o: Rect)
  {
    p.right > o.left && p.left < o.right
  }

  /** Overlap along the vertical axis; strict, so shared edges do not count. */
  predicate YOverlap(p: Rect, o: Rect)
  {
    p.top < o.bottom && p.bottom > o.top
  }

  /** Overlap on both axes; the test does not depend on which rectangle is the player. */
  function Overlaps(p: Rect, o: Rect): (r: bool)
    ensures r <==> XOverlap(o, p) && YOverlap(o, p)
  {
    XOverlap(p, o) && YOverlap(p, o)
  }

  /** Some obstacle rectangle overlaps the player rectangle. */
  predicate AnyCollision(p: Rect, obstacles: seq<Rect>)
  {
    exists i :: 0 <= i < |obstacles| && Overlaps(p, obstacles[i])
  }

  /**
   * The verdict of the pass over all obstacle elements does not depend on how
   * the elements are split: a collision with a list joined from two parts is
   * a collision with one of the parts.
   */
  lemma AnyCollisionAppend(p: Rect, a: seq<Rect>, b: seq<Rect>)
    ensures AnyCollision(p, a + b) <==> AnyCollision(p, a) || AnyCollision(p, b)
  {
    if AnyCollision(p, a + b) {
      var i :| 0 <= i < |a + b| && Overlaps(p, (a + b)[i]);
      if i < |a| {
        assert (a + b)[i] == a[i];
      } else {
        assert (a + b)[i] == b[i - |a|];
      }
    }
    if AnyCollision(p, a) {
      var i :| 0 <= i < |a| && Overlaps(p, a[i]);
      assert (a + b)[i] == a[i];
    }
    if AnyCollision(p, b) {
      var i :| 0 <= i < |b| && Overlaps(p, b[i]);
      assert (a + b)[|a| + i] == b[i];
    }
  }

  /** A rectangle of positive width and height. */
  predicate HasArea(r: Rect)
  {
    r.left < r.right && r.top < r.bottom
  }

  function Max(a: real, b: real): real { if a < b then b else a }
  function Min(a: real, b: real): real { if a < b then a else b }

  /**
   * For rectangles of positive size the strict overlap test agrees with
   * geometry: they overlap exactly when their intersection has positive width
   * and positive height.
   */
  lemma OverlapsIffIntersectionHasArea(p: Rect, o: Rect)
    requires HasArea(p) && HasArea(o)
    ensures Overlaps(p, o) <==>
      Max(p.left, o.left) < Min(p.right, o.right) && Max(p.top, o.top) < Min(p.bottom, o.bottom)
  {
  }

  /** Rectangles that only share an edge do not collide. */
  lemma TouchingDoesNotCollide(p: Rect, o: Rect)
    requires p.right == o.left || p.left == o.right || p.bottom == o.top || p.top == o.bottom
    ensures !Overlaps(p, o)
  {
  }

  /**
   * A player at y 100..140: a top pipe hanging down to y 90 passes above it
   * without a collision; a bottom pipe reaching up to y 110 (taller than any
   * spawned pipe) collides.
   */
  lemma PlayerBetweenPipes()
    ensures !Overlaps(Rect(40.0, 70.0, 100.0, 140.0), Rect(50.0, 80.0, 0.0, 90.0))
    ensures Overlaps(Rect(40.0, 70.0, 100.0, 140.0), Rect(50.0, 80.0, 110.0, 400.0))
  {
  }
}
