/**
 * Concrete lines for the three test colours (red, green and blue of the
 * repository's test images), each scanned for the sequence red, green, blue.
 */
module ScanScenarios {
  import opened Wrappers
  import opened ColorClasses
  import opened ScanSpec
  import opened ScanBlocks

  const Red := Triple(237, 28, 36)
  const Green := Triple(34, 177, 76)
  const Blue := Triple(0, 162, 232)
  const Noise := Triple(0, 0, 0)

  /** Exact-colour targets, all required. */
  const RGB_TARGETS := [Target(Red, 0, true), Target(Green, 0, true), Target(Blue, 0, true)]

  lemma Distinguished()
    ensures Matches(Red, RGB_TARGETS[0]) && Matches(Green, RGB_TARGETS[1]) && Matches(Blue, RGB_TARGETS[2])
    ensures !Matches(Green, RGB_TARGETS[0]) && !Matches(Blue, RGB_TARGETS[1])
    ensures !Matches(Noise, RGB_TARGETS[0]) && !Matches(Noise, RGB_TARGETS[1]) && !Matches(Noise, RGB_TARGETS[2])
    ensures !Matches(Green, RGB_TARGETS[2]) && !Matches(Blue, RGB_TARGETS[0])
  {
    assert !ChannelWithin(Green, Red, Uniform(0), 0);
    assert !ChannelWithin(Blue, Green, Uniform(0), 0);
    assert !ChannelWithin(Noise, Red, Uniform(0), 0);
    assert !ChannelWithin(Noise, Green, Uniform(0), 0);
    assert !ChannelWithin(Noise, Blue, Uniform(0), 1);
    assert !ChannelWithin(Green, Blue, Uniform(0), 0);
    assert !ChannelWithin(Blue, Red, Uniform(0), 0);
  }

  /** Two pixels of each colour: found, each target's span its own pair. */
  lemma TwoPixelsEach()
    ensures Scan([Red, Red, Green, Green, Blue, Blue], RGB_TARGETS)
         == ScanResult(true, [Span(Some(0), Some(1)), Span(Some(2), Some(3)), Span(Some(4), Some(5))])
  {
    var pixels := [Red, Red, Green, Green, Blue, Blue];
    var b: seq<nat> := [0, 2, 4, 6];
    Distinguished();
    assert BlockMatches(pixels, RGB_TARGETS, b, 0);
    assert BlockMatches(pixels, RGB_TARGETS, b, 1);
    assert BlockMatches(pixels, RGB_TARGETS, b, 2);
    ScanOverBlocks(pixels, RGB_TARGETS, b);
    assert BlockSpans(b) == [Span(Some(0), Some(1)), Span(Some(2), Some(3)), Span(Some(4), Some(5))];
  }

  /**
   * A noise pixel right after the required red breaks its run and resets
   * the scan; red never comes back, so the line is rejected with every span
   * cleared.
   */
  lemma NoiseResetsRequiredRun()
    ensures Scan([Red, Noise, Green, Blue], RGB_TARGETS) == ScanResult(false, ClearedSpans(3))
  {
    var pixels := [Red, Noise, Green, Blue];
    Distinguished();
    var s0 := Initial(RGB_TARGETS);
    var s1 := ScanState(0, [Span(Some(0), Some(0)), Cleared, Cleared]);
    assert ScanStep(RGB_TARGETS, pixels, 0, s0, false) == Next(s1);
    RunAfterNext(RGB_TARGETS, pixels, 0, s0, false);
    assert ScanStep(RGB_TARGETS, pixels, 1, s1, false) == Next(s0);
    RunAfterNext(RGB_TARGETS, pixels, 1, s1, false);
    assert ScanStep(RGB_TARGETS, pixels, 2, s0, false) == Next(s0);
    RunAfterNext(RGB_TARGETS, pixels, 2, s0, false);
    assert ScanStep(RGB_TARGETS, pixels, 3, s0, false) == Next(s0);
    RunAfterNext(RGB_TARGETS, pixels, 3, s0, false);
  }

  /**
   * Red then green, one pixel each, both required: the line is exactly the
   * sequence, yet the scan as written answers False, because the cursor
   * reaches the last target on the last pixel through the advance branch,
   * which has no completion check. The corrected scan answers True.
   */
  lemma AdvanceOnLastPixelMissesCompletion()
    ensures Scan([Red, Green], RGB_TARGETS[..2]).matched == false
    ensures ScanCorrected([Red, Green], RGB_TARGETS[..2]) == ScanResult(true, [Span(Some(0), Some(0)), Span(Some(1), Some(1))])
  {
    var pixels := [Red, Green];
    var targets := RGB_TARGETS[..2];
    var b: seq<nat> := [0, 1, 2];
    Distinguished();
    assert BlockMatches(pixels, targets, b, 0);
    assert BlockMatches(pixels, targets, b, 1);
    ScanOverBlocks(pixels, targets, b);
    assert BlockSpans(b) == [Span(Some(0), Some(0)), Span(Some(1), Some(1))];
  }
}
