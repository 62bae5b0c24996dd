/**
 * The interactive section tool: a state machine over the active flag, the
 * section axis and value and the model's bounds, driving one clipping plane
 * in the renderer and the model's materials, one translucent helper plane
 * in the scene, and the camera.
 */
module SectionGizmo {
  import opened Wrappers
  import opened Geometry

  /**
   * `new THREE.Plane(normal, constant)` with an axis-aligned normal: `+e_axis`,
   * or `-e_axis` when `negative`.
   */
  datatype Plane = Plane(axis: Axis, negative: bool, constant: real)

  function Neg(v: Vec3): Vec3 {
    Vec3(-v.x, -v.y, -v.z)
  }

  function Normal(plane: Plane): Vec3 {
    if plane.negative then Neg(Unit(plane.axis)) else Unit(plane.axis)
  }

  /** `plane.distanceToPoint(p)`: `normal·p + constant`. */
  function SignedDistance(plane: Plane, p: Vec3): real {
    (if plane.negative then -p.At(plane.axis) else p.At(plane.axis)) + plane.constant
  }

  /** Three.js keeps what lies on the non-negative side of a clipping plane. */
  predicate Kept(plane: Plane, p: Vec3) {
    SignedDistance(plane, p) >= 0.0
  }

  /** The section value an axis starts from: the centre for x and z, the top for y. */
  function DefaultValue(bounds: Bounds, axis: Axis): real {
    match axis
    case X => bounds.center.x
    case Y => bounds.max.y
    case Z => bounds.center.z
  }

  /** For bounds of a non-empty box the starting value lies within the bounds along its axis. */
  lemma DefaultValueWithinBounds(bounds: Bounds, axis: Axis)
    requires WellFormed(bounds)
    ensures bounds.min.At(axis) <= DefaultValue(bounds, axis) <= bounds.max.At(axis)
  {
    BoundsOfSpec(bounds.min, bounds.max, axis);
  }

  /** The clipping plane of `updateSectionPlane`: normal −e_axis, constant the section value. */
  function SectionPlane(value: real, axis: Axis): Plane {
    Plane(axis, true, value)
  }

  /** The section keeps exactly the points at or below the value along the axis. */
  lemma SectionPlaneKeeps(value: real, axis: Axis, p: Vec3)
    ensures Kept(SectionPlane(value, axis), p) <==> p.At(axis) <= value
  {
  }

  /** The section plane faces against the axis. */
  lemma SectionPlaneNormal(value: real, axis: Axis)
    ensures Normal(SectionPlane(value, axis)) == Neg(Unit(axis))
  {
  }

  /** An Euler rotation in quarter turns about x, y and z (three.js order `XYZ`). */
  datatype Rotation = Rotation(quarterX: int, quarterY: int, quarterZ: int)

  /** Quarter turns about one axis, counter-clockwise looking down the axis. */
  function QuarterTurns(a: Axis, k: int, v: Vec3): Vec3
    decreases if k >= 0 then k else 4 - k
  {
    if k == 0 then v
    else if k < 0 then QuarterTurns(a, k + 4, v)
    else
      var w := QuarterTurns(a, k - 1, v);
      match a
      case X => Vec3(w.x, -w.z, w.y)
      case Y => Vec3(w.z, w.y, -w.x)
      case Z => Vec3(-w.y, w.x, w.z)
  }

  /** `setRotationFromEuler`: the matrix Rx·Ry·Rz applied to `v`. */
  function Rotate(r: Rotation, v: Vec3): Vec3 {
    QuarterTurns(X, r.quarterX, QuarterTurns(Y, r.quarterY, QuarterTurns(Z, r.quarterZ, v)))
  }

  /** The translucent plane drawn at the section. */
  datatype Helper = Helper(width: real, height: real, position: Vec3, rotation: Rotation)

  /** `createSectionHelper`'s geometry for a value along an axis. */
  function HelperOf(bounds: Bounds, axis: Axis, value: real): Helper {
    var c := bounds.center;
    var s := bounds.size;
    match axis
    case X => Helper(s.z * 1.5, s.y * 1.5, Vec3(value + 0.01, c.y, c.z), Rotation(0, 1, 0))
    case Y => Helper(s.x * 1.5, s.z * 1.5, Vec3(c.x, value + 0.01, c.z), Rotation(1, 0, 0))
    case Z => Helper(s.x * 1.5, s.y * 1.5, Vec3(c.x, c.y, value + 0.01), Rotation(0, 0, 0))
  }

  /** The axes other than `a`, in x, y, z order. */
  function OtherAxes(a: Axis): (Axis, Axis) {
    match a
    case X => (Y, Z)
    case Y => (X, Z)
    case Z => (X, Y)
  }

  /**
   * The helper sits just past the section along the axis and at the bounds'
   * centre across it, and measures one and a half times the model across it.
   */
  lemma HelperPlacement(bounds: Bounds, axis: Axis, value: real)
    ensures var h := HelperOf(bounds, axis, value);
      && h.position.At(axis) == value + 0.01
      && h.position.At(OtherAxes(axis).0) == bounds.center.At(OtherAxes(axis).0)
      && h.position.At(OtherAxes(axis).1) == bounds.center.At(OtherAxes(axis).1)
      && multiset{h.width, h.height}
         == multiset{bounds.size.At(OtherAxes(axis).0) * 1.5, bounds.size.At(OtherAxes(axis).1) * 1.5}
  {
  }

  /** The helper, drawn in its own xy-plane, is turned to face along the section axis. */
  lemma HelperFacesAxis(bounds: Bounds, axis: Axis, value: real)
    ensures var n := Rotate(HelperOf(bounds, axis, value).rotation, Unit(Z));
      n == Unit(axis) || n == Neg(Unit(axis))
  {
    var e := Unit(Z);
    assert QuarterTurns(Z, 0, e) == e;
    match axis
    case X =>
      assert QuarterTurns(Y, 0, e) == e;
      assert QuarterTurns(Y, 1, e) == Unit(X);
      assert QuarterTurns(X, 0, Unit(X)) == Unit(X);
    case Y =>
      assert QuarterTurns(Y, 0, e) == e;
      assert QuarterTurns(X, 0, e) == e;
      assert QuarterTurns(X, 1, e) == Neg(Unit(Y));
    case Z =>
      assert QuarterTurns(Y, 0, e) == e;
      assert QuarterTurns(X, 0, e) == e;
  }

  /** The camera of `setupSectionMode`: one and a half sizes from the centre along the axis, looking at the centre. */
  function CameraOf(bounds: Bounds, axis: Axis): (Vec3, Vec3) {
    (Shift(bounds.center, axis, bounds.size.At(axis) * 1.5), bounds.center)
  }

  /** `getMinValue`. */
  function MinValue(bounds: Option<Bounds>, axis: Axis): real {
    if bounds.None? then 0.0 else bounds.value.min.At(axis)
  }

  /** `getMaxValue`. */
  function MaxValue(bounds: Option<Bounds>, axis: Axis): real {
    if bounds.None? then 0.0 else bounds.value.max.At(axis)
  }

  /** `getCurrentValue`. */
  function CurrentValue(bounds: Option<Bounds>, value: Option<real>): real {
    if bounds.None? || value.None? then 0.0 else value.value
  }

  /** The slider's range is the bounds along the axis, and it reads 0 until both bounds and value exist. */
  lemma SliderRange(bounds: Option<Bounds>, axis: Axis, value: Option<real>)
    ensures bounds.None? ==> MinValue(bounds, axis) == 0.0 && MaxValue(bounds, axis) == 0.0
    ensures bounds.Some? && WellFormed(bounds.value) ==> MinValue(bounds, axis) <= MaxValue(bounds, axis)
    ensures bounds.Some? && WellFormed(bounds.value) && value == Some(DefaultValue(bounds.value, axis)) ==>
      MinValue(bounds, axis) <= CurrentValue(bounds, value) <= MaxValue(bounds, axis)
    ensures bounds.None? || value.None? ==> CurrentValue(bounds, value) == 0.0
  {
    if bounds.Some? && WellFormed(bounds.value) {
      DefaultValueWithinBounds(bounds.value, axis);
    }
  }

  class Gizmo {
    var active: bool
    var axis: Axis
    var value: Option<real>
    var bounds: Option<Bounds>
    /** `sectionPlane`. */
    var plane: Option<Plane>
    /** The renderer's `clippingPlanes` and `localClippingEnabled`. */
    var rendererPlanes: seq<Plane>
    var localClipping: bool
    /** The `clippingPlanes` of the model's standard and basic materials. */
    var materialPlanes: seq<Plane>
    /** `helperRef.current`. */
    var helper: Option<Helper>
    /** The section helpers present in the scene. */
    var sceneHelpers: seq<Helper>
    /** The last `setLookAt`: camera position and target. */
    var camera: Option<(Vec3, Vec3)>
    /** The `fragments.update(true)` calls made so far. */
    var updates: nat

    /** At most one helper, the one the ref holds; at most one clipping plane, the current one, everywhere. */
    ghost predicate Valid()
      reads this
    {
      && sceneHelpers == (if helper.Some? then [helper.value] else [])
      && materialPlanes == rendererPlanes
      && rendererPlanes == (if plane.Some? then [plane.value] else [])
      && localClipping == plane.Some?
    }

    constructor ()
      ensures Valid()
      ensures !active && axis == Y && value == None && bounds == None && plane == None
      ensures helper == None && sceneHelpers == [] && camera == None && updates == 0
    {
      active, axis, value, bounds := false, Y, None, None;
      plane, rendererPlanes, localClipping, materialPlanes := None, [], false, [];
      helper, sceneHelpers, camera, updates := None, [], None, 0;
    }

    /** `calculateModelBounds`: bounds of the model's box, and the current axis's starting value. */
    method CalculateModelBounds(min: Vec3, max: Vec3)
      requires Valid()
      modifies this
      ensures Valid()
      ensures bounds == Some(BoundsOf(min, max))
      ensures value == Some(DefaultValue(BoundsOf(min, max), axis))
      ensures active == old(active) && axis == old(axis) && plane == old(plane) && helper == old(helper)
      ensures rendererPlanes == old(rendererPlanes) && sceneHelpers == old(sceneHelpers)
      ensures camera == old(camera) && updates == old(updates)
    {
      var b := BoundsOf(min, max);
      bounds := Some(b);
      value := Some(DefaultValue(b, axis));
    }

    /** `createSectionHelper`: removes the current helper, then adds one for the value. */
    method CreateSectionHelper(v: real, a: Axis)
      requires Valid()
      modifies this
      ensures Valid()
      ensures bounds.None? ==> helper == old(helper)
      ensures bounds.Some? ==> helper == Some(HelperOf(bounds.value, a, v)) && sceneHelpers == [helper.value]
      ensures active == old(active) && axis == old(axis) && value == old(value) && bounds == old(bounds)
      ensures plane == old(plane) && rendererPlanes == old(rendererPlanes) && materialPlanes == old(materialPlanes)
      ensures localClipping == old(localClipping) && camera == old(camera) && updates == old(updates)
    {
      if bounds.None? {
        return;
      }
      if helper.Some? {
        sceneHelpers := RemoveHelper(sceneHelpers, helper.value);
        helper := None;
      }
      var h := HelperOf(bounds.value, a, v);
      sceneHelpers := sceneHelpers + [h];
      helper := Some(h);
    }

    /** `updateSectionPlane`: one clipping plane for renderer and materials, a new helper, one update. */
    method UpdateSectionPlane(v: real, a: Axis)
      requires Valid()
      modifies this
      ensures Valid()
      ensures bounds.None? ==>
        plane == old(plane) && rendererPlanes == old(rendererPlanes) && helper == old(helper) && updates == old(updates)
      ensures bounds.Some? ==>
        && plane == Some(SectionPlane(v, a))
        && rendererPlanes == [SectionPlane(v, a)] && materialPlanes == [SectionPlane(v, a)] && localClipping
        && helper == Some(HelperOf(bounds.value, a, v)) && sceneHelpers == [helper.value]
        && updates == old(updates) + 1
      ensures active == old(active) && axis == old(axis) && value == old(value) && bounds == old(bounds)
      ensures camera == old(camera)
    {
      if bounds.None? {
        return;
      }
      var p := SectionPlane(v, a);
      rendererPlanes := [p];
      localClipping := true;
      materialPlanes := [p];
      plane := Some(p);
      CreateSectionHelper(v, a);
      updates := updates + 1;
    }

    /** `clearSection`: no clipping anywhere, no helper, no plane, one update. */
    method ClearSection()
      requires Valid()
      modifies this
      ensures Valid()
      ensures rendererPlanes == [] && materialPlanes == [] && !localClipping
      ensures helper == None && sceneHelpers == [] && plane == None
      ensures updates == old(updates) + 1
      ensures active == old(active) && axis == old(axis) && value == old(value) && bounds == old(bounds)
      ensures camera == old(camera)
    {
      rendererPlanes := [];
      localClipping := false;
      materialPlanes := [];
      if helper.Some? {
        sceneHelpers := RemoveHelper(sceneHelpers, helper.value);
        helper := None;
      }
      plane := None;
      updates := updates + 1;
    }

    /** `setupSectionMode`: start from the axis's default value and look along the axis. */
    method SetupSectionMode()
      requires Valid()
      modifies this
      ensures Valid()
      ensures bounds.None? ==>
        value == old(value) && plane == old(plane) && helper == old(helper) && camera == old(camera)
        && updates == old(updates)
      ensures bounds.Some? ==>
        && value == Some(DefaultValue(bounds.value, axis))
        && plane == Some(SectionPlane(value.value, axis))
        && helper == Some(HelperOf(bounds.value, axis, value.value))
        && camera == Some(CameraOf(bounds.value, axis))
        && updates == old(updates) + 1
      ensures active == old(active) && axis == old(axis) && bounds == old(bounds)
    {
      if bounds.None? {
        return;
      }
      var initial := DefaultValue(bounds.value, axis);
      value := Some(initial);
      UpdateSectionPlane(initial, axis);
      camera := Some(CameraOf(bounds.value, axis));
    }

    /** `handleAxisChange`: the same axis changes nothing; another resets the value to its default. */
    method HandleAxisChange(a: Axis)
      requires Valid()
      modifies this
      ensures Valid()
      ensures a == old(axis) ==> value == old(value)
      ensures axis == a
      ensures a != old(axis) && bounds.Some? ==> value == Some(DefaultValue(bounds.value, a))
      ensures a != old(axis) && bounds.None? ==> value == old(value)
      ensures active == old(active) && bounds == old(bounds) && plane == old(plane) && helper == old(helper)
      ensures rendererPlanes == old(rendererPlanes) && camera == old(camera) && updates == old(updates)
    {
      if a == axis {
        return;
      }
      axis := a;
      if bounds.Some? {
        value := Some(DefaultValue(bounds.value, a));
      }
    }

    /** `setSectionValue`, from the slider or the wheel adapter. */
    method SetSectionValue(v: real)
      requires Valid()
      modifies this
      ensures Valid() && value == Some(v)
      ensures active == old(active) && axis == old(axis) && bounds == old(bounds) && plane == old(plane)
      ensures helper == old(helper) && rendererPlanes == old(rendererPlanes) && camera == old(camera)
      ensures updates == old(updates)
    {
      value := Some(v);
    }

    /** The header button: flips the active flag. */
    method ToggleActive()
      requires Valid()
      modifies this
      ensures Valid() && active == !old(active)
      ensures axis == old(axis) && value == old(value) && bounds == old(bounds) && plane == old(plane)
      ensures helper == old(helper) && rendererPlanes == old(rendererPlanes) && camera == old(camera)
      ensures updates == old(updates)
    {
      active := !active;
    }

    /** The panel button: deactivating also clears the section at once. */
    method ActivateOrReset()
      requires Valid()
      modifies this
      ensures Valid() && active == !old(active)
      ensures old(active) ==> plane == None && helper == None && rendererPlanes == [] && updates == old(updates) + 1
      ensures !old(active) ==> plane == old(plane) && helper == old(helper) && updates == old(updates)
      ensures axis == old(axis) && value == old(value) && bounds == old(bounds) && camera == old(camera)
    {
      if active {
        active := false;
        ClearSection();
      } else {
        active := true;
      }
    }

    /** The activation effect: with bounds, set the section up when active and clear it otherwise. */
    method ActivationEffect()
      requires Valid()
      modifies this
      ensures Valid()
      ensures bounds.Some? && active ==>
        value == Some(DefaultValue(bounds.value, axis)) && plane == Some(SectionPlane(value.value, axis))
        && helper == Some(HelperOf(bounds.value, axis, value.value))
        && camera == Some(CameraOf(bounds.value, axis)) && updates == old(updates) + 1
      ensures bounds.Some? && !active ==>
        plane == None && helper == None && rendererPlanes == []
        && value == old(value) && camera == old(camera) && updates == old(updates) + 1
      ensures bounds.None? ==>
        plane == old(plane) && helper == old(helper) && value == old(value)
        && camera == old(camera) && updates == old(updates)
      ensures active == old(active) && axis == old(axis) && bounds == old(bounds)
    {
      if bounds.Some? {
        if active {
          SetupSectionMode();
        } else {
          ClearSection();
        }
      }
    }

    /** The plane effect: while active, with a value and bounds, the plane follows value and axis. */
    method PlaneEffect()
      requires Valid()
      modifies this
      ensures Valid()
      ensures active && value.Some? && bounds.Some? ==>
        plane == Some(SectionPlane(value.value, axis)) && helper == Some(HelperOf(bounds.value, axis, value.value))
        && updates == old(updates) + 1
      ensures !(active && value.Some? && bounds.Some?) ==>
        plane == old(plane) && helper == old(helper) && updates == old(updates)
      ensures active == old(active) && axis == old(axis) && value == old(value) && bounds == old(bounds)
      ensures camera == old(camera)
    {
      if active && value.Some? && bounds.Some? {
        UpdateSectionPlane(value.value, axis);
      }
    }
  }

  /** `scene.remove(h)`: drops the helper from the scene. */
  function RemoveHelper(helpers: seq<Helper>, h: Helper): (r: seq<Helper>)
    ensures h !in r
    ensures forall x :: x in r <==> x in helpers && x != h
    ensures |r| <= |helpers|
    ensures h in helpers ==> |r| < |helpers|
  {
    if helpers == [] then []
    else if helpers[0] == h then RemoveHelper(helpers[1..], h)
    else [helpers[0]] + RemoveHelper(helpers[1..], h)
  }
}
