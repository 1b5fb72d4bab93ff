// The parts of java.awt.Rectangle the board and the action scheduler use:
// a rectangle of integer tiles, point containment and intersection.

module AwtRect {

  datatype Rect = Rect(x: int, y: int, width: int, height: int)

  /** `Rectangle.contains(px, py)`: an empty rectangle contains nothing. */
  predicate Contains(r: Rect, px: int, py: int): (b: bool)
    ensures b ==> r.width > 0 && r.height > 0
  {
    r.width >= 0 && r.height >= 0 &&
    r.x <= px < r.x + r.width && r.y <= py < r.y + r.height
  }

  /** `Rectangle.intersects(s)`: both rectangles are non-empty and overlap. */
  predicate Intersects(r: Rect, s: Rect): (b: bool)
    ensures b ==> var px, py := if r.x >= s.x then r.x else s.x, if r.y >= s.y then r.y else s.y;
      Contains(r, px, py) && Contains(s, px, py)
  {
    r.width > 0 && r.height > 0 && s.width > 0 && s.height > 0 &&
    s.x < r.x + r.width && s.y < r.y + r.height &&
    r.x < s.x + s.width && r.y < s.y + s.height
  }

  /** Two rectangles intersect exactly when some tile lies in both. */
  lemma IntersectsIffSharedTile(r: Rect, s: Rect)
    ensures Intersects(r, s) <==>
      exists px, py :: Contains(r, px, py) && Contains(s, px, py)
  {
    if Intersects(r, s) {
      var px := if r.x >= s.x then r.x else s.x;
      var py := if r.y >= s.y then r.y else s.y;
      assert Contains(r, px, py) && Contains(s, px, py);
    }
  }

  lemma IntersectsSymmetric(r: Rect, s: Rect)
    ensures Intersects(r, s) == Intersects(s, r)
  {
  }
}
