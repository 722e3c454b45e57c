/// Vectors and axis-aligned rectangles as the game uses them from its math
/// library, over reals: the code only adds, subtracts, scales, halves and
/// compares coordinates, so rounding of 32-bit floats is not modelled.
module Geometry {

  datatype Vec2 = Vec2(x: real, y: real)
  datatype Vec3 = Vec3(x: real, y: real, z: real)

  /// Integer grid coordinates (IVec2 and GridCoords).
  datatype IVec2 = IVec2(x: int, y: int)

  const Zero2 := Vec2(0.0, 0.0)
  const Zero3 := Vec3(0.0, 0.0, 0.0)
  const UnitX := Vec3(1.0, 0.0, 0.0)
  const NegX := Vec3(-1.0, 0.0, 0.0)
  const UnitY := Vec3(0.0, 1.0, 0.0)
  const NegY := Vec3(0.0, -1.0, 0.0)

  function Add2(a: Vec2, b: Vec2): Vec2 { Vec2(a.x + b.x, a.y + b.y) }
  function Sub2(a: Vec2, b: Vec2): Vec2 { Vec2(a.x - b.x, a.y - b.y) }
  function Add3(a: Vec3, b: Vec3): Vec3 { Vec3(a.x + b.x, a.y + b.y, a.z + b.z) }
  function Sub3(a: Vec3, b: Vec3): Vec3 { Vec3(a.x - b.x, a.y - b.y, a.z - b.z) }
  function Scale3(v: Vec3, k: real): Vec3 { Vec3(v.x * k, v.y * k, v.z * k) }

  /// `Vec3::truncate`: drop z.
  function Truncate(v: Vec3): Vec2 { Vec2(v.x, v.y) }
  /// `Vec2::extend`: add a z coordinate.
  function Extend(v: Vec2, z: real): Vec3 { Vec3(v.x, v.y, z) }

  function Abs(r: real): real { if r < 0.0 then -r else r }
  function Min(a: real, b: real): real { if a <= b then a else b }
  function Max(a: real, b: real): real { if a >= b then a else b }

  /// `f32::signum` on the values the game produces: a difference of two equal
  /// floats is +0.0, whose signum is +1, so only negative inputs give -1.
  function Signum(r: real): (s: real)
    ensures s == 1.0 || s == -1.0
    ensures s == -1.0 <==> r < 0.0
    ensures s * r == Abs(r)
  {
    if r < 0.0 then -1.0 else 1.0
  }

  /// `normalize_or_zero` is not modelled numerically: it is any function that
  /// maps the zero vector to zero and leaves the four unit axis vectors alone.
  ghost predicate IsNormalizer(f: Vec3 -> Vec3) {
    f(Zero3) == Zero3 && f(UnitX) == UnitX && f(NegX) == NegX && f(UnitY) == UnitY && f(NegY) == NegY
  }

  type Normalizer = f: Vec3 -> Vec3 | IsNormalizer(f) witness (v: Vec3) => v

  /// An axis-aligned rectangle given by its minimum and maximum corners.
  datatype Rect = Rect(min: Vec2, max: Vec2)

  /// `Rect::from_center_size`.
  function FromCenterSize(center: Vec2, size: Vec2): Rect {
    Rect(Vec2(center.x - size.x / 2.0, center.y - size.y / 2.0),
         Vec2(center.x + size.x / 2.0, center.y + size.y / 2.0))
  }

  /// `Rect::intersect`: the overlap of two rectangles, with the minimum corner
  /// pulled down to the maximum one when they are disjoint so that width and
  /// height are never negative.
  function Intersect(a: Rect, b: Rect): (r: Rect)
    ensures r.min.x <= r.max.x && r.min.y <= r.max.y
  {
    var lo := Vec2(Max(a.min.x, b.min.x), Max(a.min.y, b.min.y));
    var hi := Vec2(Min(a.max.x, b.max.x), Min(a.max.y, b.max.y));
    Rect(Vec2(Min(lo.x, hi.x), Min(lo.y, hi.y)), hi)
  }

  /// `Rect::is_empty`: no area.
  predicate IsEmpty(r: Rect) {
    r.min.x >= r.max.x || r.min.y >= r.max.y
  }

  function Width(r: Rect): real { r.max.x - r.min.x }
  function Height(r: Rect): real { r.max.y - r.min.y }
  function Center(r: Rect): Vec2 { Vec2((r.min.x + r.max.x) / 2.0, (r.min.y + r.max.y) / 2.0) }

  /// Moves a rectangle by a vector.
  function Translate(r: Rect, d: Vec2): Rect { Rect(Add2(r.min, d), Add2(r.max, d)) }

  /// Reference definition of overlap for two centred rectangles: along each axis
  /// the centres are closer than half the summed extents and both extents are
  /// positive. Touching edges do not overlap.
  predicate CentredOverlap(ca: Vec2, sa: Vec2, cb: Vec2, sb: Vec2) {
    && sa.x > 0.0 && sb.x > 0.0 && Abs(ca.x - cb.x) * 2.0 < sa.x + sb.x
    && sa.y > 0.0 && sb.y > 0.0 && Abs(ca.y - cb.y) * 2.0 < sa.y + sb.y
  }

  lemma IntersectCommutes(a: Rect, b: Rect)
    ensures Intersect(a, b) == Intersect(b, a)
  {
  }

  /// Intersection is non-empty exactly when the open intervals overlap on both axes.
  lemma NonEmptyIntersection(a: Rect, b: Rect)
    ensures !IsEmpty(Intersect(a, b)) <==>
      (a.min.x < b.max.x && b.min.x < a.max.x && a.min.x < a.max.x && b.min.x < b.max.x &&
       a.min.y < b.max.y && b.min.y < a.max.y && a.min.y < a.max.y && b.min.y < b.max.y)
  {
  }

  /// The rectangle test used by collision detection agrees with the reference
  /// definition on centres and sizes.
  lemma OverlapIffCentred(ca: Vec2, sa: Vec2, cb: Vec2, sb: Vec2)
    ensures !IsEmpty(Intersect(FromCenterSize(ca, sa), FromCenterSize(cb, sb))) <==> CentredOverlap(ca, sa, cb, sb)
  {
    NonEmptyIntersection(FromCenterSize(ca, sa), FromCenterSize(cb, sb));
  }

  /// Two rectangles that only share an edge do not collide.
  lemma TouchingDoesNotOverlap(ca: Vec2, sa: Vec2, cb: Vec2, sb: Vec2)
    requires Abs(ca.x - cb.x) * 2.0 == sa.x + sb.x || Abs(ca.y - cb.y) * 2.0 == sa.y + sb.y
    ensures IsEmpty(Intersect(FromCenterSize(ca, sa), FromCenterSize(cb, sb)))
  {
    OverlapIffCentred(ca, sa, cb, sb);
  }

  lemma CenterOfCentred(c: Vec2, s: Vec2)
    ensures Center(FromCenterSize(c, s)) == c
  {
  }
}
