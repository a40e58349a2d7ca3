/**
 * The fade-in / hold / fade-out envelope of acradio's `Fader`. Times are
 * reals; the activation time the source starts at, `-inf`, is the instant
 * `NegInf`. `map_range` is taken to be linear interpolation.
 */
module Fading {
  import opened Wrappers

  /** A point on the time line, or the `-inf` a fader starts with. */
  datatype Instant = NegInf | At(t: real)
  {
    /** `this + d`; `-inf` stays `-inf` for every finite `d`. */
    function Plus(d: real): Instant
    {
      match this
      case NegInf => NegInf
      case At(t) => At(t + d)
    }

    /** `x < this`, which no finite `x` is below `-inf`. */
    predicate IsAfter(x: real)
    {
      At? && x < t
    }

    /** `this <= other`. */
    predicate NotAfter(other: Instant)
    {
      NegInf? || (other.At? && t <= other.t)
    }
  }

  /** `v` lies between `c` and `d`, whichever is larger. */
  predicate Between(v: real, c: real, d: real)
  {
    (c <= v <= d) || (d <= v <= c)
  }

  /** `map_range`: the point of [c, d] that `x` is at in [a, b], by linear interpolation. */
  function MapRange(x: real, a: real, b: real, c: real, d: real): (v: real)
    requires a < b
    ensures a <= x <= b ==> Between(v, c, d)
  {
    var u := (x - a) / (b - a);
    if a <= x <= b then
      QuotientInUnit(x - a, b - a);
      ScaleBetween(u, c, d);
      c + (d - c) * u
    else
      c + (d - c) * u
  }

  lemma QuotientInUnit(n: real, d: real)
    requires 0.0 <= n <= d && 0.0 < d
    ensures 0.0 <= n / d <= 1.0
  {
    var q := n / d;
    assert q * d == n;
  }

  lemma ScaleBetween(u: real, c: real, d: real)
    requires 0.0 <= u <= 1.0
    ensures Between(c + (d - c) * u, c, d)
  {
    if c <= d {
      assert (d - c) * u <= (d - c) * 1.0;
    } else {
      assert (c - d) * u <= (c - d) * 1.0;
    }
  }

  /** The interpolation hits `c` at `a` and `d` at `b`. */
  lemma MapRangeEnds(a: real, b: real, c: real, d: real)
    requires a < b
    ensures MapRange(a, a, b, c, d) == c && MapRange(b, a, b, c, d) == d
  {
    assert (b - a) / (b - a) == 1.0;
  }

  lemma DivideKeepsOrder(x: real, y: real, d: real)
    requires x <= y && 0.0 < d
    ensures x / d <= y / d
  {
    var qx, qy := x / d, y / d;
    assert qx * d == x && qy * d == y;
    assert (qy - qx) * d == y - x;
  }

  /** Moving `u` up moves `c + (d - c) * u` towards `d`. */
  lemma ScaleKeepsOrder(u: real, v: real, c: real, d: real)
    requires u <= v
    ensures c <= d ==> c + (d - c) * u <= c + (d - c) * v
    ensures d <= c ==> c + (d - c) * v <= c + (d - c) * u
  {
    assert (d - c) * v - (d - c) * u == (d - c) * (v - u);
  }

  /** The interpolation moves in the direction from `c` to `d`. */
  lemma {:induction false} MapRangeMonotone(x: real, y: real, a: real, b: real, c: real, d: real)
    requires a < b && x <= y
    ensures c <= d ==> MapRange(x, a, b, c, d) <= MapRange(y, a, b, c, d)
    ensures d <= c ==> MapRange(y, a, b, c, d) <= MapRange(x, a, b, c, d)
  {
    var ux, uy := (x - a) / (b - a), (y - a) / (b - a);
    DivideKeepsOrder(x - a, y - a, b - a);
    ScaleKeepsOrder(ux, uy, c, d);
    assert MapRange(x, a, b, c, d) == c + (d - c) * ux;
    assert MapRange(y, a, b, c, d) == c + (d - c) * uy;
  }

  /** Python's `int(x)` on a float: truncation toward zero. */
  function Truncate(x: real): (n: int)
    ensures 0.0 <= x ==> 0 <= n && n as real <= x < n as real + 1.0
    ensures x < 0.0 ==> n <= 0 && x <= n as real && n as real - 1.0 < x
  {
    if 0.0 <= x then x.Floor else -((-x).Floor)
  }

  class Fader {
    const minVal: real
    const maxVal: real
    const fadeIn: real
    const hold: real
    const fadeOut: real
    /** The optional `wrap` callable; `None` stands for the default `False`. */
    const wrap: Option<real -> real>

    var localTime: real
    var lastActivation: Instant

    constructor (minVal: real, maxVal: real, fadeIn: real, hold: real, fadeOut: real, wrap: Option<real -> real>)
      ensures this.minVal == minVal && this.maxVal == maxVal
      ensures this.fadeIn == fadeIn && this.hold == hold && this.fadeOut == fadeOut
      ensures this.wrap == wrap
      ensures localTime == 0.0 && lastActivation == NegInf
    {
      this.minVal := minVal;
      this.maxVal := maxVal;
      this.fadeIn := fadeIn;
      this.hold := hold;
      this.fadeOut := fadeOut;
      this.wrap := wrap;
      localTime := 0.0;
      lastActivation := NegInf;
    }

    /** `update`: advances the local clock by `deltaTime` and touches nothing else. */
    method Update(deltaTime: real)
      modifies this`localTime
      ensures localTime == old(localTime) + deltaTime
    {
      localTime := localTime + deltaTime;
    }

    /** `activate`: restarts the envelope at `time` and touches nothing else. */
    method Activate(time: real)
      modifies this`lastActivation
      ensures lastActivation == At(time)
    {
      lastActivation := At(time);
    }

    /** `fade_in_end`; with a non-negative fade-in it is not before the activation. */
    function FadeInEnd(): (e: Instant)
      reads this
      ensures fadeIn >= 0.0 ==> lastActivation.NotAfter(e)
      ensures e.NegInf? <==> lastActivation.NegInf?
    {
      lastActivation.Plus(fadeIn)
    }

    /** `hold_end`; with a non-negative hold it is not before `fade_in_end`. */
    function HoldEnd(): (e: Instant)
      reads this
      ensures hold >= 0.0 ==> FadeInEnd().NotAfter(e)
      ensures e.NegInf? <==> lastActivation.NegInf?
    {
      lastActivation.Plus(fadeIn + hold)
    }

    /** `fade_out_end`; with a non-negative fade-out it is not before `hold_end`. */
    function FadeOutEnd(): (e: Instant)
      reads this
      ensures fadeOut >= 0.0 ==> HoldEnd().NotAfter(e)
      ensures e.NegInf? <==> lastActivation.NegInf?
    {
      lastActivation.Plus(fadeIn + hold + fadeOut)
    }

    /**
     * The envelope before `wrap`, at local time `x`. Each interpolating
     * branch is reached only when its interval is non-empty, so `map_range`
     * never divides by zero, and the value stays between min and max.
     */
    function ValueAt(x: real): (v: real)
      reads this
      ensures Between(v, minVal, maxVal)
    {
      if lastActivation.IsAfter(x) then minVal
      else if FadeInEnd().IsAfter(x) then
        MapRange(x, lastActivation.t, FadeInEnd().t, minVal, maxVal)
      else if HoldEnd().IsAfter(x) then maxVal
      else if FadeOutEnd().IsAfter(x) then
        MapRange(x, HoldEnd().t, FadeOutEnd().t, maxVal, minVal)
      else minVal
    }

    /** `value`: the envelope at the current local time, passed through `wrap` when one is set. */
    function Value(): (v: real)
      reads this
      ensures wrap.None? ==> v == ValueAt(localTime)
      ensures wrap.Some? ==> v == wrap.value(ValueAt(localTime))
    {
      var v := ValueAt(localTime);
      match wrap
      case None => v
      case Some(f) => f(v)
    }
  }

  /** A fader that was never activated rests at its minimum at every time. */
  lemma NeverActivatedRestsAtMin(f: Fader, x: real)
    requires f.lastActivation == NegInf
    ensures f.ValueAt(x) == f.minVal
  {
  }

  /** Before the activation, and from `fade_out_end` on, the envelope is at its minimum. */
  lemma RestsAtMinOutsideWindow(f: Fader, x: real)
    requires f.fadeIn >= 0.0 && f.hold >= 0.0 && f.fadeOut >= 0.0
    requires f.lastActivation.IsAfter(x) || !f.FadeOutEnd().IsAfter(x)
    ensures f.ValueAt(x) == f.minVal
  {
  }

  /** Between `fade_in_end` and `hold_end` the envelope holds its maximum. */
  lemma HoldsAtMax(f: Fader, x: real)
    requires f.fadeIn >= 0.0
    requires f.lastActivation.At?
    requires f.FadeInEnd().t <= x < f.HoldEnd().t
    ensures f.ValueAt(x) == f.maxVal
  {
  }

  /**
   * The envelope's corners: it starts from the minimum at the activation
   * (when there is a fade-in), reaches the maximum at `fade_in_end` (when
   * there is a hold) and is back at the minimum at `fade_out_end`.
   */
  lemma {:induction false} EnvelopeCorners(f: Fader)
    requires f.fadeIn >= 0.0 && f.hold >= 0.0 && f.fadeOut >= 0.0
    requires f.lastActivation.At?
    ensures f.fadeIn > 0.0 ==> f.ValueAt(f.lastActivation.t) == f.minVal
    ensures f.hold > 0.0 ==> f.ValueAt(f.FadeInEnd().t) == f.maxVal
    ensures f.ValueAt(f.FadeOutEnd().t) == f.minVal
  {
    var a := f.lastActivation.t;
    if f.fadeIn > 0.0 {
      MapRangeEnds(a, a + f.fadeIn, f.minVal, f.maxVal);
    }
  }

  /** With no fade-in and some hold, the value at the activation instant is already the maximum. */
  lemma InstantFadeInStartsAtMax(f: Fader)
    requires f.fadeIn == 0.0 && f.hold > 0.0
    requires f.lastActivation.At?
    ensures f.ValueAt(f.lastActivation.t) == f.maxVal
  {
  }

  /** The fade-in rises and the fade-out falls (for min <= max). */
  lemma {:induction false} RampsAreMonotone(f: Fader, x: real, y: real)
    requires f.minVal <= f.maxVal
    requires f.fadeIn >= 0.0 && f.hold >= 0.0 && f.fadeOut >= 0.0
    requires f.lastActivation.At? && x <= y
    ensures f.lastActivation.t <= x && y < f.FadeInEnd().t ==> f.ValueAt(x) <= f.ValueAt(y)
    ensures f.HoldEnd().t <= x && y < f.FadeOutEnd().t ==> f.ValueAt(y) <= f.ValueAt(x)
  {
    var a := f.lastActivation.t;
    if a <= x && y < f.FadeInEnd().t {
      MapRangeMonotone(x, y, a, f.FadeInEnd().t, f.minVal, f.maxVal);
    }
    if f.HoldEnd().t <= x && y < f.FadeOutEnd().t {
      MapRangeMonotone(x, y, f.HoldEnd().t, f.FadeOutEnd().t, f.maxVal, f.minVal);
    }
  }
}
