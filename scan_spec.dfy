/**
 * The colour-sequence scanner of common/ss_PixelScanners.py as a pure state
 * machine. A state is the cursor `cIndex` into the targets plus the span
 * recorded for every target; one step consumes one pixel; `Run` consumes the
 * rest of the line and yields the verdict with the final spans.
 */
module ScanSpec {
  import opened Wrappers
  import opened ColorClasses

  /** The part of a descriptor the scanner reads and never writes. */
  datatype Target = Target(color: Triple, tolerance: int, requirement: bool)

  /** The part of a descriptor the scanner writes: `startPixel`/`endPixel`. */
  datatype Span = Span(startPixel: Option<int>, endPixel: Option<int>)

  datatype ScanState = ScanState(cIndex: nat, spans: seq<Span>)

  /** Either scanning goes on with the next pixel, or it returned True early. */
  datatype Step = Next(state: ScanState) | Complete(state: ScanState)

  /** What the scanner hands back: the verdict and every target's span. */
  datatype ScanResult = ScanResult(matched: bool, spans: seq<Span>)

  const Cleared: Span := Span(None, None)

  function ClearedSpans(n: nat): seq<Span> {
    seq(n, _ => Cleared)
  }

  /**
   * The scanner's tolerance test `colorWithinTolerance`: the `color_cmp` rule
   * with one scalar tolerance applied to all three channels.
   */
  predicate ColorWithinTolerance(color: Triple, target: Triple, tolerance: int): (r: bool)
    ensures r <==> && target.c0 - tolerance <= color.c0 <= target.c0 + tolerance
                   && target.c1 - tolerance <= color.c1 <= target.c1 + tolerance
                   && target.c2 - tolerance <= color.c2 <= target.c2 + tolerance
  {
    var tol := Uniform(tolerance);
    assert ChannelWithin(color, target, tol, 0) && ChannelWithin(color, target, tol, 1) && ChannelWithin(color, target, tol, 2)
        ==> WithinTolerance(color, target, tol);
    WithinTolerance(color, target, tol)
  }

  /** Pixel `pixel` matches target `t` within the target's tolerance. */
  predicate Matches(pixel: Triple, t: Target) {
    ColorWithinTolerance(pixel, t.color, t.tolerance)
  }

  predicate WellShaped(targets: seq<Target>, st: ScanState) {
    st.cIndex < |targets| && |st.spans| == |targets|
  }

  /** The state at entry: every span cleared, cursor on the first target. */
  function Initial(targets: seq<Target>): (st: ScanState)
    requires |targets| > 0
    ensures WellShaped(targets, st)
    ensures st.cIndex == 0 && forall j :: 0 <= j < |targets| ==> st.spans[j] == Span(None, None)
  {
    ScanState(0, ClearedSpans(|targets|))
  }

  /**
   * One iteration of the pixel loop, for pixel `px`. With
   * `completeOnAdvance` false this is the loop body as written; with it true
   * an advance onto the last target at the last pixel also completes.
   */
  function ScanStep(targets: seq<Target>, pixels: seq<Triple>, px: nat, st: ScanState,
                    completeOnAdvance: bool): (r: Step)
    requires px < |pixels| && WellShaped(targets, st)
    ensures WellShaped(targets, r.state)
  {
    var c := st.cIndex;
    var last := |targets| - 1;
    if Matches(pixels[px], targets[c]) then
      var s := st.spans[c];
      var start := if s.startPixel.None? then Some(px) else s.startPixel;
      var st' := ScanState(c, st.spans[c := Span(start, Some(px))]);
      if px == |pixels| - 1 && c == last then Complete(st') else Next(st')
    else if st.spans[c].startPixel.Some? then
      if c != last then
        if Matches(pixels[px], targets[c + 1]) then
          var st' := ScanState(c + 1, st.spans[c + 1 := Span(Some(px), Some(px))]);
          if completeOnAdvance && px == |pixels| - 1 && c + 1 == last then Complete(st') else Next(st')
        else if targets[c].requirement then
          Next(Initial(targets))
        else
          Next(st)
      else if targets[c].requirement then
        Complete(st)
      else
        Next(st)
    else
      Next(st)
  }

  /** What one step does to the cursor and the spans. */
  lemma ScanStepFacts(targets: seq<Target>, pixels: seq<Triple>, px: nat, st: ScanState,
                      completeOnAdvance: bool)
    requires px < |pixels| && WellShaped(targets, st)
    ensures var r := ScanStep(targets, pixels, px, st, completeOnAdvance);
      var c := st.cIndex;
      && // the cursor stays put, moves one target on, or restarts at the first target
         (r.state.cIndex == c || r.state.cIndex == c + 1 || r.state == Initial(targets))
      && // a pixel that matches the current target extends its span and never moves the cursor
         (Matches(pixels[px], targets[c]) ==>
            && r.state.cIndex == c
            && r.state.spans[c].endPixel == Some(px)
            && r.state.spans[c].startPixel == (if st.spans[c].startPixel.None? then Some(px) else st.spans[c].startPixel)
            && (forall j :: 0 <= j < |targets| && j != c ==> r.state.spans[j] == st.spans[j]))
      && // the cursor moves on only from a matched target, onto a target this pixel matches,
         // whose span becomes exactly this pixel
         (r.state.cIndex == c + 1 ==>
            && st.spans[c].startPixel.Some?
            && !Matches(pixels[px], targets[c])
            && Matches(pixels[px], targets[c + 1])
            && r.state.spans[c + 1] == Span(Some(px), Some(px))
            && (forall j :: 0 <= j < |targets| && j != c + 1 ==> r.state.spans[j] == st.spans[j]))
      && // a broken run that the pixel hands on to the next target does move the cursor on
         (!Matches(pixels[px], targets[c]) && st.spans[c].startPixel.Some?
          && c < |targets| - 1 && Matches(pixels[px], targets[c + 1]) ==>
            r.state == ScanState(c + 1, st.spans[c + 1 := Span(Some(px), Some(px))]))
      && // a broken run of the last target completes unchanged when it is required and
         // otherwise changes nothing
         (c == |targets| - 1 && !Matches(pixels[px], targets[c]) && st.spans[c].startPixel.Some? ==>
            r == (if targets[c].requirement then Complete(st) else Next(st)))
      && // a broken run of a non-last target that the pixel does not hand on: full reset when
         // the target is required, no change otherwise
         (!Matches(pixels[px], targets[c]) && st.spans[c].startPixel.Some?
          && c < |targets| - 1 && !Matches(pixels[px], targets[c + 1]) ==>
            r == Next(if targets[c].requirement then Initial(targets) else st))
      && // before the current target is first matched, a pixel that misses it changes nothing
         (!Matches(pixels[px], targets[c]) && st.spans[c].startPixel.None? ==> r == Next(st))
      && // early completion happens only on the last target, with its span started
         (r.Complete? ==> r.state.cIndex == |targets| - 1 && r.state.spans[|targets| - 1].startPixel.Some?)
      && // and it does happen: the last pixel matches the last target, the run of a required
         // last target breaks, or (when asked to) the last pixel hands the run on to the last target
         (r.Complete? <==>
            || (c == |targets| - 1 && Matches(pixels[px], targets[c]) && px == |pixels| - 1)
            || (c == |targets| - 1 && !Matches(pixels[px], targets[c]) && st.spans[c].startPixel.Some?
                && targets[c].requirement)
            || (completeOnAdvance && c + 1 == |targets| - 1 && px == |pixels| - 1
                && !Matches(pixels[px], targets[c]) && st.spans[c].startPixel.Some?
                && Matches(pixels[px], targets[c + 1])))
  {
  }

  /** The verdict after the whole line: the last target is optional and was matched. */
  predicate FinalVerdict(targets: seq<Target>, spans: seq<Span>): (r: bool)
    requires |spans| == |targets| > 0
    ensures targets[|targets| - 1].requirement ==> !r
    ensures r ==> spans[|targets| - 1] != Cleared
  {
    !targets[|targets| - 1].requirement && spans[|targets| - 1].endPixel.Some?
  }

  /** The scan of pixels `px..` from state `st`. */
  function Run(targets: seq<Target>, pixels: seq<Triple>, px: nat, st: ScanState,
               completeOnAdvance: bool): (r: ScanResult)
    requires px <= |pixels| && WellShaped(targets, st)
    ensures |r.spans| == |targets|
    decreases |pixels| - px
  {
    if px == |pixels| then
      ScanResult(FinalVerdict(targets, st.spans), st.spans)
    else
      match ScanStep(targets, pixels, px, st, completeOnAdvance)
      case Complete(s) => ScanResult(true, s.spans)
      case Next(s) => Run(targets, pixels, px + 1, s, completeOnAdvance)
  }

  /** `pixelSequenceScan` as written. */
  function Scan(pixels: seq<Triple>, targets: seq<Target>): (r: ScanResult)
    requires |targets| > 0
    ensures |r.spans| == |targets|
    ensures r.matched ==> r.spans[|targets| - 1] != Cleared
  {
    RunTouchesLast(targets, pixels, 0, Initial(targets), false);
    Run(targets, pixels, 0, Initial(targets), false)
  }

  /** `pixelSequenceScan` with the completion check also applied after an advance. */
  function ScanCorrected(pixels: seq<Triple>, targets: seq<Target>): (r: ScanResult)
    requires |targets| > 0
    ensures |r.spans| == |targets|
    ensures r.matched ==> r.spans[|targets| - 1] != Cleared
  {
    RunTouchesLast(targets, pixels, 0, Initial(targets), true);
    Run(targets, pixels, 0, Initial(targets), true)
  }

  /** A step completes only with the last target's span started. */
  lemma CompleteStartsLast(targets: seq<Target>, pixels: seq<Triple>, px: nat, st: ScanState, f: bool)
    requires px < |pixels| && WellShaped(targets, st)
    requires ScanStep(targets, pixels, px, st, f).Complete?
    ensures ScanStep(targets, pixels, px, st, f).state.spans[|targets| - 1].startPixel.Some?
  {
  }

  /** From any state, a True verdict comes with the last target's span no longer cleared. */
  lemma {:induction false} RunTouchesLast(targets: seq<Target>, pixels: seq<Triple>, px: nat, st: ScanState, f: bool)
    requires px <= |pixels| && WellShaped(targets, st)
    ensures var r := Run(targets, pixels, px, st, f);
      r.matched ==> r.spans[|targets| - 1] != Cleared
    decreases |pixels| - px
  {
    if px < |pixels| {
      var step := ScanStep(targets, pixels, px, st, f);
      if step.Complete? {
        CompleteStartsLast(targets, pixels, px, st, f);
        RunAfterComplete(targets, pixels, px, st, f);
      } else {
        RunAfterNext(targets, pixels, px, st, f);
        RunTouchesLast(targets, pixels, px + 1, step.state, f);
      }
    }
  }

  /** Unfolding `Run` over a step that goes on. */
  lemma RunAfterNext(targets: seq<Target>, pixels: seq<Triple>, px: nat, st: ScanState, f: bool)
    requires px < |pixels| && WellShaped(targets, st)
    requires ScanStep(targets, pixels, px, st, f).Next?
    ensures Run(targets, pixels, px, st, f) == Run(targets, pixels, px + 1, ScanStep(targets, pixels, px, st, f).state, f)
  {
  }

  /** Unfolding `Run` over a step that completes. */
  lemma RunAfterComplete(targets: seq<Target>, pixels: seq<Triple>, px: nat, st: ScanState, f: bool)
    requires px < |pixels| && WellShaped(targets, st)
    requires ScanStep(targets, pixels, px, st, f).Complete?
    ensures Run(targets, pixels, px, st, f) == ScanResult(true, ScanStep(targets, pixels, px, st, f).state.spans)
  {
  }
}
