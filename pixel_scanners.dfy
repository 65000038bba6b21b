/**
 * `pixelSequenceScan` of common/ss_PixelScanners.py as the source runs it:
 * one pass over the pixels with the cursor `cIndex`, overwriting the span
 * fields of the `PixelColor` objects in the list in place. The method is
 * proved to end in exactly the verdict and spans of `ScanSpec.Scan`.
 */
module PixelScanners {
  import opened Wrappers
  import opened ColorClasses
  import opened ScanSpec
  import ScanProperties

  /** No descriptor object appears twice in the list. */
  ghost predicate Distinct(colors: seq<PixelColor>) {
    forall i, j :: 0 <= i < j < |colors| ==> colors[i] != colors[j]
  }

  /** The fields of each descriptor that the scanner only reads. */
  ghost function Targets(colors: seq<PixelColor>): (r: seq<Target>)
    reads colors
    ensures |r| == |colors|
    ensures forall i :: 0 <= i < |colors| ==>
              r[i] == Target(colors[i].color, colors[i].tolerance, colors[i].requirement)
  {
    seq(|colors|, i requires 0 <= i < |colors| reads colors =>
      Target(colors[i].color, colors[i].tolerance, colors[i].requirement))
  }

  /**
   * The descriptors carry the colours, tolerances and requirements `targets`.
   * This pointwise form, and `Records` below, say what `Targets(colors) ==
   * targets` and `Spans(colors) == spans` say; the loop keeps them instead
   * because a single field update then changes one element's facts, without
   * re-proving the equality of two whole sequences over the heap on every
   * iteration. `ReadBack` converts back once the loop is done.
   */
  ghost predicate Describes(colors: seq<PixelColor>, targets: seq<Target>)
    reads colors
  {
    && |colors| == |targets|
    && forall j :: 0 <= j < |colors| ==>
         Target(colors[j].color, colors[j].tolerance, colors[j].requirement) == targets[j]
  }

  /** The descriptors' span fields hold `spans`. */
  ghost predicate Records(colors: seq<PixelColor>, spans: seq<Span>)
    reads colors
  {
    && |colors| == |spans|
    && forall j :: 0 <= j < |colors| ==> Span(colors[j].startPixel, colors[j].endPixel) == spans[j]
  }

  /** The span fields of each descriptor. */
  ghost function Spans(colors: seq<PixelColor>): (r: seq<Span>)
    reads colors
    ensures |r| == |colors|
    ensures forall i :: 0 <= i < |colors| ==> r[i] == Span(colors[i].startPixel, colors[i].endPixel)
  {
    seq(|colors|, i requires 0 <= i < |colors| reads colors =>
      Span(colors[i].startPixel, colors[i].endPixel))
  }

  /** Clears every descriptor's span; nothing else changes. */
  method ClearColorScanPixels(colors: seq<PixelColor>)
    requires Distinct(colors)
    modifies colors
    ensures Spans(colors) == ClearedSpans(|colors|)
    ensures Targets(colors) == old(Targets(colors))
  {
    for i := 0 to |colors|
      invariant forall j :: 0 <= j < i ==> colors[j].startPixel == None && colors[j].endPixel == None
      invariant forall j :: 0 <= j < |colors| ==>
                  colors[j].color == old(colors[j].color) && colors[j].tolerance == old(colors[j].tolerance)
                  && colors[j].requirement == old(colors[j].requirement)
    {
      colors[i].ClearColorScanPixels();
    }
  }

  /** The scanner's `colors` argument: one descriptor, or a list of them. */
  datatype Descriptors = Single(color: PixelColor) | Several(colors: seq<PixelColor>)

  /** The descriptors as the list the scanner works on; a single one becomes a one-element list. */
  function AsList(d: Descriptors): (r: seq<PixelColor>)
    ensures d.Single? ==> r == [d.color]
    ensures d.Several? ==> r == d.colors
  {
    match d
    case Single(c) => [c]
    case Several(cs) => cs
  }

  /**
   * The scanner's entry point: wraps a single descriptor into a list, scans,
   * and hands back the descriptors in the shape they came in (the same
   * objects, their spans now filled in) together with the verdict.
   */
  method PixelSequenceScan(pixels: seq<Triple>, colors: Descriptors) returns (matched: bool, result: Descriptors)
    requires |AsList(colors)| > 0
    requires Distinct(AsList(colors))
    modifies AsList(colors)
    ensures result == colors
    ensures Targets(AsList(colors)) == old(Targets(AsList(colors)))
    ensures ScanResult(matched, Spans(AsList(colors))) == Scan(pixels, old(Targets(AsList(colors))))
  {
    var list := AsList(colors);
    matched := ScanColors(pixels, list, false);
    result := colors;
  }

  /**
   * Scans `pixels` for the ordered targets `colors`. Ends with the verdict
   * and the spans of `Scan` (as written) or of `ScanCorrected` (with
   * `completeOnAdvance`) for the descriptors' colours, tolerances and
   * requirements, which it leaves as they were.
   */
  method ScanColors(pixels: seq<Triple>, colors: seq<PixelColor>, completeOnAdvance: bool) returns (matched: bool)
    requires |colors| > 0
    requires Distinct(colors)
    modifies colors
    ensures Targets(colors) == old(Targets(colors))
    ensures ScanResult(matched, Spans(colors))
         == if completeOnAdvance then ScanCorrected(pixels, old(Targets(colors))) else Scan(pixels, old(Targets(colors)))
    ensures matched ==> colors[|colors| - 1].startPixel.Some? && colors[|colors| - 1].endPixel.Some?
  {
    ghost var targets := Targets(colors);
    ghost var result := Run(targets, pixels, 0, Initial(targets), completeOnAdvance);
    ScanProperties.MatchedRecordsLast(pixels, targets);
    var last := |colors| - 1;
    var cIndex := 0;
    DescribesTargets(colors);
    ResetSpans(colors, targets);
    ghost var st := Initial(targets);
    for px := 0 to |pixels|
      invariant Describes(colors, targets)
      invariant WellShaped(targets, st) && st.cIndex == cIndex && Records(colors, st.spans)
      invariant Run(targets, pixels, px, st, completeOnAdvance) == result
    {
      ghost var step := ScanStep(targets, pixels, px, st, completeOnAdvance);
      if step.Complete? {
        RunAfterComplete(targets, pixels, px, st, completeOnAdvance);
      } else {
        RunAfterNext(targets, pixels, px, st, completeOnAdvance);
      }
      var done;
      done, cIndex := ScanPixel(pixels, px, colors, cIndex, completeOnAdvance, targets, st);
      if done {
        matched := true;
        ReadBack(colors, targets, step.state.spans);
        return;
      }
      st := step.state;
    }
    matched := !colors[last].requirement && colors[last].endPixel.Some?;
    ReadBack(colors, targets, st.spans);
  }

  /**
   * One pass of the scanner's loop body over pixel `px`: extends the current
   * target's span, hands the run on to the next target, resets every span, or
   * leaves them be, exactly as `ScanStep` does. `done` is the early `True`.
   */
  method ScanPixel(pixels: seq<Triple>, px: nat, colors: seq<PixelColor>, cIndex: nat,
                   completeOnAdvance: bool, ghost targets: seq<Target>, ghost st: ScanState)
    returns (done: bool, next: nat)
    requires px < |pixels| && Distinct(colors)
    requires Describes(colors, targets) && WellShaped(targets, st)
    requires st.cIndex == cIndex && Records(colors, st.spans)
    modifies colors
    ensures var step := ScanStep(targets, pixels, px, st, completeOnAdvance);
      && done == step.Complete?
      && next == step.state.cIndex
      && Describes(colors, targets) && Records(colors, step.state.spans)
  {
    ghost var step := ScanStep(targets, pixels, px, st, completeOnAdvance);
    var last := |colors| - 1;
    done, next := false, cIndex;
    if ColorWithinTolerance(pixels[px], colors[cIndex].color, colors[cIndex].tolerance) {
      // the pixel continues the current target's run
      var start := if colors[cIndex].startPixel.None? then Some(px) else colors[cIndex].startPixel;
      SetSpan(colors, cIndex, start, Some(px), targets, st.spans);
      assert step.state.spans == st.spans[cIndex := Span(start, Some(px))];
      done := px == |pixels| - 1 && cIndex == last;
    } else if colors[cIndex].startPixel.Some? {
      // the current target's run is broken
      if cIndex != last {
        if ColorWithinTolerance(pixels[px], colors[cIndex + 1].color, colors[cIndex + 1].tolerance) {
          next := cIndex + 1;
          SetSpan(colors, next, Some(px), Some(px), targets, st.spans);
          assert step.state.spans == st.spans[next := Span(Some(px), Some(px))];
          // the corrected scanner also completes here, as the match branch does
          done := completeOnAdvance && px == |pixels| - 1 && next == last;
        } else if colors[cIndex].requirement {
          ResetSpans(colors, targets);
          next := 0;
          assert step.state == Initial(targets);
        }
      } else if colors[cIndex].requirement {
        done := true;
      }
    }
  }

  /** Sets the span fields of descriptor `k` alone. */
  method SetSpan(colors: seq<PixelColor>, k: nat, start: Option<int>, end: Option<int>,
                 ghost targets: seq<Target>, ghost spans: seq<Span>)
    requires k < |colors| && Distinct(colors)
    requires Describes(colors, targets) && Records(colors, spans)
    modifies colors[k]
    ensures Describes(colors, targets) && Records(colors, spans[k := Span(start, end)])
  {
    colors[k].startPixel := start;
    colors[k].endPixel := end;
  }

  /** `ClearColorScanPixels` seen through the loop's invariants. */
  method ResetSpans(colors: seq<PixelColor>, ghost targets: seq<Target>)
    requires Distinct(colors) && Describes(colors, targets)
    modifies colors
    ensures Describes(colors, targets) && Records(colors, ClearedSpans(|colors|))
  {
    ClearColorScanPixels(colors);
  }

  /** A list's own targets describe it. */
  lemma DescribesTargets(colors: seq<PixelColor>)
    ensures Describes(colors, Targets(colors))
  {
  }

  /** Descriptors that carry `targets` and record `spans` read back as exactly those. */
  lemma ReadBack(colors: seq<PixelColor>, targets: seq<Target>, spans: seq<Span>)
    requires Describes(colors, targets) && Records(colors, spans)
    ensures Targets(colors) == targets && Spans(colors) == spans
  {
  }

}
