/** Playfield geometry and the overlap test behind every hit check.

    All lengths are in tenths of a canvas pixel: the formation moves 1.2 pixels
    a tick, so in tenths every coordinate the game ever produces is a whole
    number and the arithmetic is exact. */
module Geometry {

  /** The canvas is 480 x 640 pixels. */
  const Width: int := 4800
  const Height: int := 6400

  /** An axis-aligned box given by its top-left corner and its size: the player and every alien. */
  datatype Rect = Rect(x: int, y: int, w: int, h: int)

  /** A round shot: its centre and radius. */
  datatype Bullet = Bullet(x: int, y: int, r: int)

  /** The first argument of the overlap test. It is either a box that carries its
      own width and height, or a record that carries only a radius, in which case
      both sides fall back to twice the radius (the `a.w || a.r * 2` of the game). */
  datatype Shape =
    | Sized(x: int, y: int, w: int, h: int)
    | Radial(x: int, y: int, r: int)

  function SpanX(s: Shape): int {
    if s.Sized? then s.w else 2 * s.r
  }

  function SpanY(s: Shape): int {
    if s.Sized? then s.h else 2 * s.r
  }

  /** The box a shape occupies. */
  function Bounds(s: Shape): Rect {
    Rect(s.x, s.y, SpanX(s), SpanY(s))
  }

  /** A box passed as the first argument of the overlap test. */
  function Box(r: Rect): Shape {
    Sized(r.x, r.y, r.w, r.h)
  }

  /** The square a bullet is tested as: offset by the radius from the centre, side twice the radius. */
  function Probe(b: Bullet): (s: Shape)
    ensures s.x == b.x - b.r && s.y == b.y - b.r
    ensures s.x + SpanX(s) == b.x + b.r && s.y + SpanY(s) == b.y + b.r
  {
    Radial(b.x - b.r, b.y - b.r, b.r)
  }

  /** The game's `collide`: strict overlap on both axes, so boxes that only touch do not collide. */
  predicate Collide(a: Shape, b: Rect) {
    a.x < b.x + b.w &&
    a.x + SpanX(a) > b.x &&
    a.y < b.y + b.h &&
    a.y + SpanY(a) > b.y
  }

  /** The point (px, py) lies strictly inside box r. */
  ghost predicate Covers(r: Rect, px: real, py: real) {
    r.x as real < px < (r.x + r.w) as real &&
    r.y as real < py < (r.y + r.h) as real
  }

  /** Reference meaning of an overlap: the two open boxes share a point. */
  ghost predicate Overlap(a: Rect, b: Rect) {
    exists px: real, py: real :: Covers(a, px, py) && Covers(b, px, py)
  }

  function Max(a: int, b: int): int { if a < b then b else a }
  function Min(a: int, b: int): int { if a < b then a else b }

  /** For boxes of positive size, `collide` holds exactly when the two boxes share
      an interior point. */
  lemma CollideIffOverlap(a: Shape, b: Rect)
    requires SpanX(a) > 0 && SpanY(a) > 0 && b.w > 0 && b.h > 0
    ensures Collide(a, b) <==> Overlap(Bounds(a), b)
  {
    var ra := Bounds(a);
    if Collide(a, b) {
      var px := (Max(ra.x, b.x) as real + Min(ra.x + ra.w, b.x + b.w) as real) / 2.0;
      var py := (Max(ra.y, b.y) as real + Min(ra.y + ra.h, b.y + b.h) as real) / 2.0;
      assert Covers(ra, px, py) && Covers(b, px, py);
    }
    if Overlap(ra, b) {
      var px, py :| Covers(ra, px, py) && Covers(b, px, py);
      assert Collide(a, b);
    }
  }

  /** Between two boxes the test is symmetric. */
  lemma CollideSymmetric(a: Rect, b: Rect)
    ensures Collide(Box(a), b) == Collide(Box(b), a)
  {
  }

  /** Boxes that meet only along an edge do not collide. */
  lemma TouchingIsNoHit(a: Shape, b: Rect)
    requires a.x + SpanX(a) == b.x || b.x + b.w == a.x || a.y + SpanY(a) == b.y || b.y + b.h == a.y
    ensures !Collide(a, b)
  {
  }

  /** A bullet hits a box exactly when the square from (x - r, y - r) to (x + r, y + r)
      overlaps it strictly. */
  lemma ProbeIsSquare(b: Bullet, t: Rect)
    ensures Collide(Probe(b), t) <==>
              b.x - b.r < t.x + t.w && b.x + b.r > t.x && b.y - b.r < t.y + t.h && b.y + b.r > t.y
  {
  }
}
