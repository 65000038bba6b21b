/**
 * The colour descriptor of src/ss_ColorClasses.py: a three-channel colour,
 * the per-channel tolerance comparison `color_cmp`, and the class
 * `PixelColor` whose span fields the scanner overwrites in place.
 */
module ColorClasses {
  import opened Wrappers

  /** A three-channel value: an RGB (or HSV) colour, or a per-channel tolerance list. */
  datatype Triple = Triple(c0: int, c1: int, c2: int) {
    /** Channel `i`, as `color[i]` in the source. */
    function At(i: nat): int
      requires i < 3
    {
      if i == 0 then c0 else if i == 1 then c1 else c2
    }
  }

  /** The same tolerance on every channel. */
  function Uniform(t: int): (r: Triple)
    ensures forall i :: 0 <= i < 3 ==> r.At(i) == t
  {
    Triple(t, t, t)
  }

  datatype ColorCompareMode = RGB | HSV

  /** Channel `i` of `color` lies in `[target[i] - tol[i], target[i] + tol[i]]`. */
  predicate ChannelWithin(color: Triple, target: Triple, tol: Triple, i: nat)
    requires i < 3
  {
    target.At(i) - tol.At(i) <= color.At(i) <= target.At(i) + tol.At(i)
  }

  /** Every channel of `color` is within the tolerance window around `target`. */
  predicate WithinTolerance(color: Triple, target: Triple, tol: Triple) {
    forall i :: 0 <= i < 3 ==> ChannelWithin(color, target, tol, i)
  }

  /** With zero tolerance on every channel the comparison is equality of colours. */
  lemma ZeroToleranceIsEquality(a: Triple, b: Triple)
    ensures WithinTolerance(a, b, Triple(0, 0, 0)) <==> a == b
  {
    if WithinTolerance(a, b, Triple(0, 0, 0)) {
      assert ChannelWithin(a, b, Triple(0, 0, 0), 0);
      assert ChannelWithin(a, b, Triple(0, 0, 0), 1);
      assert ChannelWithin(a, b, Triple(0, 0, 0), 2);
    }
  }

  /** Swapping the two colours does not change the verdict. */
  lemma WithinToleranceSymmetric(a: Triple, b: Triple, tol: Triple)
    ensures WithinTolerance(a, b, tol) <==> WithinTolerance(b, a, tol)
  {
    if WithinTolerance(a, b, tol) {
      forall i | 0 <= i < 3 ensures ChannelWithin(b, a, tol, i) {
        assert ChannelWithin(a, b, tol, i);
      }
    }
    if WithinTolerance(b, a, tol) {
      forall i | 0 <= i < 3 ensures ChannelWithin(a, b, tol, i) {
        assert ChannelWithin(b, a, tol, i);
      }
    }
  }

  /** A match stays a match when every channel's tolerance grows. */
  lemma WithinToleranceMonotone(a: Triple, b: Triple, tol: Triple, wider: Triple)
    requires forall i :: 0 <= i < 3 ==> tol.At(i) <= wider.At(i)
    requires WithinTolerance(a, b, tol)
    ensures WithinTolerance(a, b, wider)
  {
    forall i | 0 <= i < 3 ensures ChannelWithin(a, b, wider, i) {
      assert ChannelWithin(a, b, tol, i);
    }
  }

  /**
   * A target colour descriptor. `startPixel`/`endPixel` are the bookkeeping
   * the scanner writes: `None` when cleared, otherwise pixel indices.
   */
  class PixelColor {
    var color: Triple
    var requirement: bool
    var tolerance: int
    var startPixel: Option<int>
    var endPixel: Option<int>

    /** Stores the arguments; the span fields start at 0, not `None`. */
    constructor (color: Triple, tolerance: int, requirement: bool)
      ensures this.color == color && this.tolerance == tolerance && this.requirement == requirement
      ensures startPixel == Some(0) && endPixel == Some(0)
    {
      this.color := color;
      this.requirement := requirement;
      this.tolerance := tolerance;
      this.startPixel := Some(0);
      this.endPixel := Some(0);
    }

    /** Forgets the recorded span and nothing else. */
    method ClearColorScanPixels()
      modifies this
      ensures startPixel == None && endPixel == None
      ensures color == old(color) && requirement == old(requirement) && tolerance == old(tolerance)
    {
      startPixel := None;
      endPixel := None;
    }

    /**
     * True iff every channel of this colour lies within `tolerance` of the
     * other colour's channel. `mode` does not influence the result, and
     * neither object is changed (the method has no `modifies` clause).
     */
    method ColorCmp(other: PixelColor, mode: ColorCompareMode := RGB, tolerance: Triple := Triple(0, 0, 0))
      returns (r: bool)
      ensures r <==> WithinTolerance(color, other.color, tolerance)
    {
      for c := 0 to 3
        invariant forall i :: 0 <= i < c ==> ChannelWithin(color, other.color, tolerance, i)
      {
        if color.At(c) > other.color.At(c) + tolerance.At(c) || color.At(c) < other.color.At(c) - tolerance.At(c) {
          assert !ChannelWithin(color, other.color, tolerance, c);
          return false;
        }
      }
      return true;
    }
  }
}
