/**
 * What the scanner guarantees about its cursor, the spans it records and
 * its verdict, proved about the state machine of ScanSpec.
 */
module ScanProperties {
  import opened Wrappers
  import opened ColorClasses
  import opened ScanSpec

  /** Both ends of a span are recorded. */
  predicate Recorded(s: Span) {
    s.startPixel.Some? && s.endPixel.Some?
  }

  /**
   * Facts about each span on its own: it is cleared or fully recorded, lies
   * inside the pixel line with its start not after its end, starts and ends
   * on pixels that match its target, and, for a required target, every pixel
   * in between matches too.
   */
  ghost predicate SpanFacts(targets: seq<Target>, pixels: seq<Triple>, spans: seq<Span>)
    requires |spans| == |targets|
  {
    && (forall j :: 0 <= j < |spans| ==> spans[j] == Cleared || Recorded(spans[j]))
    && (forall j :: 0 <= j < |spans| && Recorded(spans[j]) ==>
          0 <= spans[j].startPixel.value <= spans[j].endPixel.value < |pixels|)
    && (forall j :: 0 <= j < |spans| && Recorded(spans[j]) ==>
          && Matches(pixels[spans[j].startPixel.value], targets[j])
          && Matches(pixels[spans[j].endPixel.value], targets[j]))
    && (forall j, p ::
          (0 <= j < |spans| && Recorded(spans[j]) && targets[j].requirement
           && spans[j].startPixel.value <= p <= spans[j].endPixel.value) ==> Matches(pixels[p], targets[j]))
  }

  /**
   * How spans relate across targets when the cursor is on target `k`: every
   * target up to `k` is recorded, spans come in target order without overlap,
   * a required target's span is followed immediately by the next one's, and
   * every target after `k` is cleared.
   */
  ghost predicate Chain(targets: seq<Target>, spans: seq<Span>, k: nat)
    requires |spans| == |targets|
  {
    && (forall j :: k < j < |spans| ==> spans[j] == Cleared)
    && (forall j :: 0 <= j < k && j + 1 < |spans| ==> Linked(targets, spans, j))
  }

  /** Targets `j` and `j + 1` are both recorded, in order, adjacent if `j` is required. */
  ghost predicate Linked(targets: seq<Target>, spans: seq<Span>, j: nat)
    requires |spans| == |targets| && j + 1 < |spans|
  {
    && Recorded(spans[j]) && Recorded(spans[j + 1])
    && spans[j].endPixel.value < spans[j + 1].startPixel.value
    && (targets[j].requirement ==> spans[j + 1].startPixel.value == spans[j].endPixel.value + 1)
  }

  /**
   * What holds of every state the scanner reaches after the first `px`
   * pixels, including the state it completes in.
   */
  ghost predicate Settled(targets: seq<Target>, pixels: seq<Triple>, px: nat, st: ScanState) {
    && WellShaped(targets, st)
    && px <= |pixels|
    && SpanFacts(targets, pixels, st.spans)
    && (forall j :: 0 <= j < |targets| && Recorded(st.spans[j]) ==> st.spans[j].endPixel.value < px)
    && Chain(targets, st.spans, st.cIndex)
  }

  /**
   * The loop invariant: a settled state in which a required current target
   * that has been matched was matched by the previous pixel too.
   */
  ghost predicate Consistent(targets: seq<Target>, pixels: seq<Triple>, px: nat, st: ScanState) {
    && Settled(targets, pixels, px, st)
    && (targets[st.cIndex].requirement && Recorded(st.spans[st.cIndex]) ==>
          st.spans[st.cIndex].endPixel.value + 1 == px)
  }

  /** The current target's span after a matching pixel `px`. */
  function Extended(st: ScanState, px: nat): Span
    requires st.cIndex < |st.spans|
  {
    var s := st.spans[st.cIndex];
    Span(if s.startPixel.None? then Some(px) else s.startPixel, Some(px))
  }

  /** Extending the current target's span over a matching pixel keeps every span's facts. */
  lemma ExtendKeepsSpanFacts(targets: seq<Target>, pixels: seq<Triple>, px: nat, st: ScanState)
    requires px < |pixels| && Consistent(targets, pixels, px, st)
    requires Matches(pixels[px], targets[st.cIndex])
    ensures SpanFacts(targets, pixels, st.spans[st.cIndex := Extended(st, px)])
  {
    var c := st.cIndex;
    var s := st.spans[c];
    var spans' := st.spans[c := Extended(st, px)];
    forall j, p | 0 <= j < |spans'| && Recorded(spans'[j]) && targets[j].requirement
                  && spans'[j].startPixel.value <= p <= spans'[j].endPixel.value
      ensures Matches(pixels[p], targets[j])
    {
      if j == c && p == px {
      } else if j == c {
        assert Recorded(s) && s.startPixel.value <= p <= s.endPixel.value;
      } else {
        assert spans'[j] == st.spans[j];
      }
    }
  }

  /** A pixel matching the current target extends its span and keeps the invariant. */
  lemma ExtendKeepsConsistent(targets: seq<Target>, pixels: seq<Triple>, px: nat, st: ScanState)
    requires px < |pixels| && Consistent(targets, pixels, px, st)
    requires Matches(pixels[px], targets[st.cIndex])
    ensures Consistent(targets, pixels, px + 1, ScanState(st.cIndex, st.spans[st.cIndex := Extended(st, px)]))
  {
    var c := st.cIndex;
    var spans' := st.spans[c := Extended(st, px)];
    ExtendKeepsSpanFacts(targets, pixels, px, st);
    forall j | 0 <= j < c ensures Linked(targets, spans', j) {
      assert Linked(targets, st.spans, j);
    }
  }

  /** Opening the next target's span at a pixel it matches keeps every span's facts. */
  lemma AdvanceKeepsSpanFacts(targets: seq<Target>, pixels: seq<Triple>, px: nat, st: ScanState)
    requires px < |pixels| && Consistent(targets, pixels, px, st)
    requires st.cIndex < |targets| - 1
    requires Matches(pixels[px], targets[st.cIndex + 1])
    ensures SpanFacts(targets, pixels, st.spans[st.cIndex + 1 := Span(Some(px), Some(px))])
  {
    var c := st.cIndex;
    var spans' := st.spans[c + 1 := Span(Some(px), Some(px))];
    forall j, p | 0 <= j < |spans'| && Recorded(spans'[j]) && targets[j].requirement
                  && spans'[j].startPixel.value <= p <= spans'[j].endPixel.value
      ensures Matches(pixels[p], targets[j])
    {
      if j != c + 1 {
        assert spans'[j] == st.spans[j];
      }
    }
  }

  /** Opening the next target's span keeps the spans chained, now up to the new cursor. */
  lemma AdvanceKeepsChain(targets: seq<Target>, pixels: seq<Triple>, px: nat, st: ScanState)
    requires px < |pixels| && Consistent(targets, pixels, px, st)
    requires st.cIndex < |targets| - 1 && Recorded(st.spans[st.cIndex])
    ensures Chain(targets, st.spans[st.cIndex + 1 := Span(Some(px), Some(px))], st.cIndex + 1)
  {
    var c := st.cIndex;
    var spans' := st.spans[c + 1 := Span(Some(px), Some(px))];
    assert st.spans[c].endPixel.value < px;
    assert Linked(targets, spans', c);
    forall j | 0 <= j < c ensures Linked(targets, spans', j) {
      assert Linked(targets, st.spans, j);
    }
  }

  /** Moving the cursor onto the next target keeps the invariant. */
  lemma AdvanceKeepsConsistent(targets: seq<Target>, pixels: seq<Triple>, px: nat, st: ScanState)
    requires px < |pixels| && Consistent(targets, pixels, px, st)
    requires st.cIndex < |targets| - 1 && Recorded(st.spans[st.cIndex])
    requires Matches(pixels[px], targets[st.cIndex + 1])
    ensures Consistent(targets, pixels, px + 1,
                       ScanState(st.cIndex + 1, st.spans[st.cIndex + 1 := Span(Some(px), Some(px))]))
  {
    var c := st.cIndex;
    var spans' := st.spans[c + 1 := Span(Some(px), Some(px))];
    AdvanceKeepsSpanFacts(targets, pixels, px, st);
    AdvanceKeepsChain(targets, pixels, px, st);
    forall j | 0 <= j < |targets| && Recorded(spans'[j]) ensures spans'[j].endPixel.value < px + 1 {
      if j != c + 1 {
        assert spans'[j] == st.spans[j];
      }
    }
  }

  /** A pixel that changes nothing leaves a settled state, still consistent unless it broke a required run. */
  lemma StayKeepsSettled(targets: seq<Target>, pixels: seq<Triple>, px: nat, st: ScanState)
    requires px < |pixels| && Consistent(targets, pixels, px, st)
    requires !Matches(pixels[px], targets[st.cIndex])
    ensures Settled(targets, pixels, px + 1, st)
    ensures !(targets[st.cIndex].requirement && Recorded(st.spans[st.cIndex])) ==> Consistent(targets, pixels, px + 1, st)
  {
  }

  /** The state at entry, with every span cleared, is consistent after any prefix of the line. */
  lemma InitialConsistent(targets: seq<Target>, pixels: seq<Triple>, px: nat)
    requires |targets| > 0 && px <= |pixels|
    ensures Consistent(targets, pixels, px, Initial(targets))
  {
  }

  /** One step keeps the invariant; a completing step leaves a settled state. */
  lemma StepKeepsConsistent(targets: seq<Target>, pixels: seq<Triple>, px: nat, st: ScanState, f: bool)
    requires px < |pixels| && Consistent(targets, pixels, px, st)
    ensures var r := ScanStep(targets, pixels, px, st, f);
      Settled(targets, pixels, px + 1, r.state) && (r.Next? ==> Consistent(targets, pixels, px + 1, r.state))
  {
    var r := ScanStep(targets, pixels, px, st, f);
    var c := st.cIndex;
    var s := st.spans[c];
    if Matches(pixels[px], targets[c]) {
      assert r.state == ScanState(c, st.spans[c := Extended(st, px)]);
      ExtendKeepsConsistent(targets, pixels, px, st);
    } else if s.startPixel.Some? && c < |targets| - 1 && Matches(pixels[px], targets[c + 1]) {
      assert r.state == ScanState(c + 1, st.spans[c + 1 := Span(Some(px), Some(px))]);
      AdvanceKeepsConsistent(targets, pixels, px, st);
    } else if s.startPixel.Some? && c < |targets| - 1 && targets[c].requirement {
      assert r == Next(Initial(targets));
      InitialConsistent(targets, pixels, px + 1);
    } else {
      assert r.state == st;
      assert r.Next? ==> !(targets[c].requirement && Recorded(s));
      StayKeepsSettled(targets, pixels, px, st);
    }
  }

  /**
   * A successful scan's spans: every target is recorded, in target order,
   * and each required target's span is followed immediately by the next one's.
   */
  ghost predicate FullChain(targets: seq<Target>, spans: seq<Span>)
    requires |spans| == |targets|
  {
    && (forall j :: 0 <= j < |spans| ==> Recorded(spans[j]))
    && (forall j :: 0 <= j < |spans| - 1 ==> Linked(targets, spans, j))
  }

  lemma SettledLastRecordedIsFull(targets: seq<Target>, pixels: seq<Triple>, px: nat, st: ScanState)
    requires Settled(targets, pixels, px, st)
    requires st.spans[|targets| - 1] != Cleared
    ensures FullChain(targets, st.spans)
  {
    var n := |targets|;
    assert st.cIndex == n - 1;
    forall j | 0 <= j < n ensures Recorded(st.spans[j]) {
      if j < n - 1 {
        assert Linked(targets, st.spans, j);
      }
    }
  }

  /** The scan from any consistent state keeps every span's facts, and succeeds only with a full chain. */
  lemma {:induction false} RunSound(targets: seq<Target>, pixels: seq<Triple>, px: nat, st: ScanState, f: bool)
    requires Consistent(targets, pixels, px, st)
    ensures var r := Run(targets, pixels, px, st, f);
      SpanFacts(targets, pixels, r.spans) && (r.matched ==> FullChain(targets, r.spans))
    decreases |pixels| - px
  {
    if px == |pixels| {
      if FinalVerdict(targets, st.spans) {
        SettledLastRecordedIsFull(targets, pixels, px, st);
      }
    } else {
      var step := ScanStep(targets, pixels, px, st, f);
      StepKeepsConsistent(targets, pixels, px, st, f);
      if step.Complete? {
        CompleteStartsLast(targets, pixels, px, st, f);
        RunAfterComplete(targets, pixels, px, st, f);
        SettledLastRecordedIsFull(targets, pixels, px + 1, step.state);
      } else {
        RunAfterNext(targets, pixels, px, st, f);
        RunSound(targets, pixels, px + 1, step.state, f);
      }
    }
  }

  /**
   * What every scan hands back: each span is cleared or a recorded range of
   * the line whose end pixels match its target (every pixel of it, for a
   * required target), and a True verdict comes with every target recorded,
   * in order, each required target followed immediately by the next one.
   */
  lemma ScanSound(pixels: seq<Triple>, targets: seq<Target>)
    requires |targets| > 0
    ensures SpanFacts(targets, pixels, Scan(pixels, targets).spans)
    ensures Scan(pixels, targets).matched ==> FullChain(targets, Scan(pixels, targets).spans)
    ensures SpanFacts(targets, pixels, ScanCorrected(pixels, targets).spans)
    ensures ScanCorrected(pixels, targets).matched ==> FullChain(targets, ScanCorrected(pixels, targets).spans)
  {
    RunSound(targets, pixels, 0, Initial(targets), false);
    RunSound(targets, pixels, 0, Initial(targets), true);
  }

  /** If no pixel from `px` on matches the first target, nothing is ever recorded. */
  lemma {:induction false} RunNeverStarts(targets: seq<Target>, pixels: seq<Triple>, px: nat, f: bool)
    requires |targets| > 0 && px <= |pixels|
    requires forall p :: px <= p < |pixels| ==> !Matches(pixels[p], targets[0])
    ensures Run(targets, pixels, px, Initial(targets), f) == ScanResult(false, ClearedSpans(|targets|))
    decreases |pixels| - px
  {
    if px < |pixels| {
      RunNeverStarts(targets, pixels, px + 1, f);
    }
  }

  /** A line with no pixel matching the first target yields False with every span cleared. */
  lemma NeverMatchingFirstTarget(pixels: seq<Triple>, targets: seq<Target>)
    requires |targets| > 0
    requires forall p :: 0 <= p < |pixels| ==> !Matches(pixels[p], targets[0])
    ensures Scan(pixels, targets) == ScanResult(false, ClearedSpans(|targets|))
    ensures ScanCorrected(pixels, targets) == ScanResult(false, ClearedSpans(|targets|))
  {
    RunNeverStarts(targets, pixels, 0, false);
    RunNeverStarts(targets, pixels, 0, true);
  }

  /** With one target already matched, the scan succeeds unless a required target meets the end of the line. */
  lemma {:induction false} RunSingleMatched(targets: seq<Target>, pixels: seq<Triple>, px: nat, st: ScanState, f: bool)
    requires |targets| == 1 && px <= |pixels| && WellShaped(targets, st)
    requires Recorded(st.spans[0])
    requires px < |pixels| || !targets[0].requirement
    ensures Run(targets, pixels, px, st, f).matched
    decreases |pixels| - px
  {
    if px < |pixels| {
      var step := ScanStep(targets, pixels, px, st, f);
      if step.Next? {
        RunSingleMatched(targets, pixels, px + 1, step.state, f);
      }
    }
  }

  /** With one target and a matching pixel ahead, the scan succeeds. */
  lemma {:induction false} RunSingleFinds(targets: seq<Target>, pixels: seq<Triple>, px: nat, p: nat, f: bool)
    requires |targets| == 1 && px <= p < |pixels|
    requires Matches(pixels[p], targets[0])
    ensures Run(targets, pixels, px, Initial(targets), f).matched
    decreases p - px
  {
    var step := ScanStep(targets, pixels, px, Initial(targets), f);
    if Matches(pixels[px], targets[0]) {
      if step.Next? {
        RunSingleMatched(targets, pixels, px + 1, step.state, f);
      }
    } else {
      RunSingleFinds(targets, pixels, px + 1, p, f);
    }
  }

  /**
   * A single target, required or not, is found iff some pixel of the line
   * matches it.
   */
  lemma SingleTargetScan(pixels: seq<Triple>, target: Target)
    ensures Scan(pixels, [target]).matched <==> exists p :: 0 <= p < |pixels| && Matches(pixels[p], target)
  {
    if p :| 0 <= p < |pixels| && Matches(pixels[p], target) {
      RunSingleFinds([target], pixels, 0, p, false);
    } else {
      NeverMatchingFirstTarget(pixels, [target]);
    }
  }

  /**
   * A True verdict needs every target, required or not, to be matched by
   * some pixel: an absent target, even an optional one, makes the scan fail.
   */
  lemma SuccessNeedsEveryTarget(pixels: seq<Triple>, targets: seq<Target>, j: nat)
    requires j < |targets|
    requires forall p :: 0 <= p < |pixels| ==> !Matches(pixels[p], targets[j])
    ensures !Scan(pixels, targets).matched
    ensures !ScanCorrected(pixels, targets).matched
  {
    ScanSound(pixels, targets);
  }

  /** A True verdict always comes with the last target's span recorded. */
  lemma MatchedRecordsLast(pixels: seq<Triple>, targets: seq<Target>)
    requires |targets| > 0
    ensures var r := Scan(pixels, targets);
      r.matched ==> r.spans[|targets| - 1].startPixel.Some? && r.spans[|targets| - 1].endPixel.Some?
    ensures var r := ScanCorrected(pixels, targets);
      r.matched ==> r.spans[|targets| - 1].startPixel.Some? && r.spans[|targets| - 1].endPixel.Some?
  {
    ScanSound(pixels, targets);
  }

  /**
   * The corrected step differs from the step as written only in ending the
   * scan: both reach the same state, and a step as written that completes
   * completes corrected too.
   */
  lemma CorrectedStepAgrees(targets: seq<Target>, pixels: seq<Triple>, px: nat, st: ScanState)
    requires px < |pixels| && WellShaped(targets, st)
    ensures var a := ScanStep(targets, pixels, px, st, false);
      var b := ScanStep(targets, pixels, px, st, true);
      && a.state == b.state
      && (a.Complete? ==> b.Complete?)
      && (b.Complete? && a.Next? ==> px == |pixels| - 1)
  {
  }

  /** From any state, the corrected scan records the same spans and accepts whatever the scan as written accepts. */
  lemma {:induction false} RunCorrectedAgrees(targets: seq<Target>, pixels: seq<Triple>, px: nat, st: ScanState)
    requires px <= |pixels| && WellShaped(targets, st)
    ensures var a := Run(targets, pixels, px, st, false);
      var b := Run(targets, pixels, px, st, true);
      a.spans == b.spans && (a.matched ==> b.matched)
    decreases |pixels| - px
  {
    if px < |pixels| {
      CorrectedStepAgrees(targets, pixels, px, st);
      var a := ScanStep(targets, pixels, px, st, false);
      var b := ScanStep(targets, pixels, px, st, true);
      if a.Next? && b.Next? {
        RunCorrectedAgrees(targets, pixels, px + 1, a.state);
      }
    }
  }

  /**
   * The correction changes no recorded span and turns no True verdict into
   * False: it only adds success where the scan as written misses it.
   */
  lemma CorrectionOnlyAddsSuccess(pixels: seq<Triple>, targets: seq<Target>)
    requires |targets| > 0
    ensures ScanCorrected(pixels, targets).spans == Scan(pixels, targets).spans
    ensures Scan(pixels, targets).matched ==> ScanCorrected(pixels, targets).matched
  {
    RunCorrectedAgrees(targets, pixels, 0, Initial(targets));
  }
}
