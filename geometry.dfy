/**
 * The three.js values the section tool works with: axes, vectors and the
 * bounds derived from a model's bounding box. Coordinates are reals.
 */
module Geometry {

  /** `"x" | "y" | "z"`. */
  datatype Axis = X | Y | Z

  datatype Vec3 = Vec3(x: real, y: real, z: real) {
    /** The component along `a`. */
    function At(a: Axis): real {
      match a
      case X => x
      case Y => y
      case Z => z
    }
  }

  /** The unit vector along `a`. */
  function Unit(a: Axis): Vec3 {
    match a
    case X => Vec3(1.0, 0.0, 0.0)
    case Y => Vec3(0.0, 1.0, 0.0)
    case Z => Vec3(0.0, 0.0, 1.0)
  }

  /** `v` with its component along `a` moved by `d`. */
  function Shift(v: Vec3, a: Axis, d: real): (r: Vec3)
    ensures r.At(a) == v.At(a) + d
    ensures forall b :: b != a ==> r.At(b) == v.At(b)
  {
    match a
    case X => v.(x := v.x + d)
    case Y => v.(y := v.y + d)
    case Z => v.(z := v.z + d)
  }

  /** `modelBounds`: the box corners with the box's centre and size. */
  datatype Bounds = Bounds(min: Vec3, max: Vec3, center: Vec3, size: Vec3)

  /** `Box3.isEmpty()`: some maximum lies below its minimum. */
  predicate IsEmptyBox(min: Vec3, max: Vec3) {
    max.x < min.x || max.y < min.y || max.z < min.z
  }

  /** `getCenter` and `getSize` of a `Box3`: both are the zero vector for an empty box. */
  function BoundsOf(min: Vec3, max: Vec3): Bounds {
    if IsEmptyBox(min, max) then Bounds(min, max, Vec3(0.0, 0.0, 0.0), Vec3(0.0, 0.0, 0.0))
    else
      Bounds(min, max,
             Vec3((min.x + max.x) / 2.0, (min.y + max.y) / 2.0, (min.z + max.z) / 2.0),
             Vec3(max.x - min.x, max.y - min.y, max.z - min.z))
  }

  /** Along every axis of a non-empty box the centre lies between the corners, half a size from each. */
  lemma BoundsOfSpec(min: Vec3, max: Vec3, a: Axis)
    ensures !IsEmptyBox(min, max) ==>
      var b := BoundsOf(min, max);
      && b.min.At(a) <= b.center.At(a) <= b.max.At(a)
      && b.size.At(a) >= 0.0
      && b.center.At(a) - b.size.At(a) / 2.0 == b.min.At(a)
      && b.center.At(a) + b.size.At(a) / 2.0 == b.max.At(a)
    ensures IsEmptyBox(min, max) ==> BoundsOf(min, max).size.At(a) == 0.0 && BoundsOf(min, max).center.At(a) == 0.0
  {
  }

  /** Bounds as a non-empty box produces them. */
  predicate WellFormed(b: Bounds) {
    !IsEmptyBox(b.min, b.max) && b == BoundsOf(b.min, b.max)
  }
}
