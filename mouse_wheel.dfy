/**
 * The wheel adapter of the section tool: one wheel notch moves the section
 * by 1% of the model's extent along the current axis, clamped to the
 * model's bounds.
 */
module MouseWheel {
  import opened Wrappers
  import opened Geometry

  function Max(a: real, b: real): real {
    if a >= b then a else b
  }

  function Min(a: real, b: real): real {
    if a <= b then a else b
  }

  /** `Math.max(lo, Math.min(hi, v))`. */
  function Clamp(lo: real, hi: real, v: real): real {
    Max(lo, Min(hi, v))
  }

  /** The step of one wheel event: scrolling down (`deltaY > 0`) lowers the section. */
  function Step(bounds: Bounds, axis: Axis, deltaY: real): real {
    bounds.size.At(axis) * 0.01 * (if deltaY > 0.0 then -1.0 else 1.0)
  }

  /** The value emitted for one wheel event. */
  function WheelValue(bounds: Bounds, axis: Axis, current: real, deltaY: real): real {
    Clamp(bounds.min.At(axis), bounds.max.At(axis), current + Step(bounds, axis, deltaY))
  }

  /** The handler is installed only while active, with a world, bounds and a section value. */
  predicate Installed(active: bool, worldReady: bool, bounds: Option<Bounds>, current: Option<real>) {
    active && worldReady && bounds.Some? && current.Some?
  }

  /** What one wheel event emits through `onSectionHeightChange`, if a handler is installed. */
  function OnWheel(active: bool, worldReady: bool, bounds: Option<Bounds>, current: Option<real>,
                   axis: Axis, deltaY: real): Option<real> {
    if Installed(active, worldReady, bounds, current) then Some(WheelValue(bounds.value, axis, current.value, deltaY))
    else None
  }

  /** The step is 1% of the extent along the axis, negative exactly when `deltaY > 0`. */
  lemma StepSpec(bounds: Bounds, axis: Axis, deltaY: real)
    ensures deltaY > 0.0 ==> Step(bounds, axis, deltaY) == -(bounds.size.At(axis) / 100.0)
    ensures deltaY <= 0.0 ==> Step(bounds, axis, deltaY) == bounds.size.At(axis) / 100.0
    ensures bounds.size.At(axis) > 0.0 ==> (Step(bounds, axis, deltaY) < 0.0 <==> deltaY > 0.0)
  {
  }

  /** With `lo <= hi` the emitted value lies in `[lo, hi]`, and a value already there is kept. */
  lemma ClampSpec(lo: real, hi: real, v: real)
    requires lo <= hi
    ensures lo <= Clamp(lo, hi, v) <= hi
    ensures lo <= v <= hi ==> Clamp(lo, hi, v) == v
    ensures v < lo ==> Clamp(lo, hi, v) == lo
    ensures hi < v ==> Clamp(lo, hi, v) == hi
  {
  }

  /** Clamping twice is clamping once. */
  lemma ClampIdempotent(lo: real, hi: real, v: real)
    requires lo <= hi
    ensures Clamp(lo, hi, Clamp(lo, hi, v)) == Clamp(lo, hi, v)
  {
    ClampSpec(lo, hi, v);
    ClampSpec(lo, hi, Clamp(lo, hi, v));
  }

  /** Every emitted value stays within the model's bounds along the axis. */
  lemma WheelValueInBounds(bounds: Bounds, axis: Axis, current: real, deltaY: real)
    requires bounds.min.At(axis) <= bounds.max.At(axis)
    ensures bounds.min.At(axis) <= WheelValue(bounds, axis, current, deltaY) <= bounds.max.At(axis)
  {
    ClampSpec(bounds.min.At(axis), bounds.max.At(axis), current + Step(bounds, axis, deltaY));
  }

  /** From a value within the bounds, scrolling down never raises the section and scrolling up never lowers it. */
  lemma WheelValueDirection(bounds: Bounds, axis: Axis, current: real, deltaY: real)
    requires bounds.min.At(axis) <= current <= bounds.max.At(axis)
    requires bounds.size.At(axis) >= 0.0
    ensures deltaY > 0.0 ==> WheelValue(bounds, axis, current, deltaY) <= current
    ensures deltaY <= 0.0 ==> WheelValue(bounds, axis, current, deltaY) >= current
  {
  }

  /** An event is answered exactly when the handler is installed, and the answer is within the bounds. */
  lemma OnWheelSpec(active: bool, worldReady: bool, bounds: Option<Bounds>, current: Option<real>,
                    axis: Axis, deltaY: real)
    ensures OnWheel(active, worldReady, bounds, current, axis, deltaY).Some? <==>
      active && worldReady && bounds.Some? && current.Some?
    ensures (OnWheel(active, worldReady, bounds, current, axis, deltaY).Some?
             && bounds.value.min.At(axis) <= bounds.value.max.At(axis)) ==>
      bounds.value.min.At(axis) <= OnWheel(active, worldReady, bounds, current, axis, deltaY).value <= bounds.value.max.At(axis)
  {
    if bounds.Some? && current.Some? && bounds.value.min.At(axis) <= bounds.value.max.At(axis) {
      WheelValueInBounds(bounds.value, axis, current.value, deltaY);
    }
  }
}
