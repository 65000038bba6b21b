/**
 * Lines made of one solid block of pixels per target, in target order: what
 * the scanner is meant to recognise, and what it actually reports.
 */
module ScanBlocks {
  import opened Wrappers
  import opened ColorClasses
  import opened ScanSpec

  /**
   * The boundaries `b` cut the line into one non-empty block per target:
   * block `k` is pixels `b[k] .. b[k+1]-1`, each of them matches target `k`,
   * and the first pixel of a block does not match the previous target.
   */
  ghost predicate Blocks(pixels: seq<Triple>, targets: seq<Target>, b: seq<nat>) {
    && |b| == |targets| + 1
    && b[0] == 0 && b[|targets|] == |pixels|
    && (forall i, j :: 0 <= i < j < |b| ==> b[i] < b[j])
    && (forall k :: 0 <= k < |targets| ==> BlockMatches(pixels, targets, b, k))
    && (forall k :: 1 <= k < |targets| ==> !Matches(pixels[b[k]], targets[k - 1]))
  }

  /** Every pixel of block `k` matches target `k`. */
  ghost predicate BlockMatches(pixels: seq<Triple>, targets: seq<Target>, b: seq<nat>, k: nat)
    requires k < |targets| && |b| == |targets| + 1 && b[k + 1] <= |pixels|
  {
    forall p :: b[k] <= p < b[k + 1] ==> Matches(pixels[p], targets[k])
  }

  /** The span of block `k`. */
  function BlockSpan(b: seq<nat>, k: nat): Span
    requires k + 1 < |b|
  {
    Span(Some(b[k]), Some(b[k + 1] as int - 1))
  }

  /** Every block's span, one per target. */
  function BlockSpans(b: seq<nat>): (r: seq<Span>)
    requires |b| > 0
    ensures |r| == |b| - 1 && forall k :: 0 <= k < |r| ==> r[k] == BlockSpan(b, k)
  {
    seq(|b| - 1, k requires 0 <= k < |b| - 1 => BlockSpan(b, k))
  }

  /**
   * The scanner's state after the first `px` pixels when pixel `px - 1` lies
   * in block `k` (or nothing is scanned yet and `k` is 0): the blocks before
   * `k` recorded whole, block `k` recorded up to `px - 1`, the rest cleared.
   */
  function Expected(b: seq<nat>, k: nat, px: nat): ScanState
    requires k + 1 < |b|
  {
    ScanState(k, seq(|b| - 1, j requires 0 <= j < |b| - 1 =>
      if j < k then BlockSpan(b, j)
      else if j == k && px > b[k] then Span(Some(b[k]), Some(px as int - 1))
      else Cleared))
  }

  /** Once the whole line is scanned, the expected spans are the block spans. */
  lemma ExpectedAtEnd(b: seq<nat>)
    requires |b| >= 2 && b[|b| - 2] < b[|b| - 1]
    ensures Expected(b, |b| - 2, b[|b| - 1]).spans == BlockSpans(b)
  {
  }

  /** A pixel inside block `k` extends target `k`'s span. */
  lemma StepInBlock(pixels: seq<Triple>, targets: seq<Target>, b: seq<nat>, k: nat, px: nat, f: bool)
    requires |targets| > 0 && Blocks(pixels, targets, b)
    requires k < |targets| && b[k] <= px < b[k + 1] && (px > b[k] || px == 0)
    ensures px < |pixels| && WellShaped(targets, Expected(b, k, px))
    ensures var next := Expected(b, k, px + 1);
      ScanStep(targets, pixels, px, Expected(b, k, px), f)
        == if px == |pixels| - 1 && k == |targets| - 1 then Complete(next) else Next(next)
  {
    assert b[k + 1] <= b[|targets|];
    assert BlockMatches(pixels, targets, b, k);
    var st := Expected(b, k, px);
    var s := st.spans[k];
    var start := if s.startPixel.None? then Some(px) else s.startPixel;
    assert st.spans[k := Span(start, Some(px))] == Expected(b, k, px + 1).spans;
  }

  /** The first pixel of block `k + 1` moves the cursor onto target `k + 1`. */
  lemma StepOpensBlock(pixels: seq<Triple>, targets: seq<Target>, b: seq<nat>, k: nat, px: nat, f: bool)
    requires |targets| > 0 && Blocks(pixels, targets, b)
    requires k + 1 < |targets| && px == b[k + 1]
    ensures px < |pixels| && WellShaped(targets, Expected(b, k, px))
    ensures var next := Expected(b, k + 1, px + 1);
      ScanStep(targets, pixels, px, Expected(b, k, px), f)
        == if f && px == |pixels| - 1 && k + 1 == |targets| - 1 then Complete(next) else Next(next)
  {
    assert b[k] < b[k + 1] < b[k + 2] <= b[|targets|];
    assert !Matches(pixels[px], targets[k]);
    assert BlockMatches(pixels, targets, b, k + 1);
    var st := Expected(b, k, px);
    assert st.spans[k + 1 := Span(Some(px), Some(px))] == Expected(b, k + 1, px + 1).spans;
  }

  /** `Run` over a pixel inside block `k`. */
  lemma RunStepInBlock(pixels: seq<Triple>, targets: seq<Target>, b: seq<nat>, k: nat, px: nat, f: bool)
    requires |targets| > 0 && Blocks(pixels, targets, b)
    requires k < |targets| && b[k] <= px < b[k + 1] && (px > b[k] || px == 0)
    ensures px < |pixels| && WellShaped(targets, Expected(b, k, px))
    ensures px == |pixels| - 1 && k == |targets| - 1 ==>
              Run(targets, pixels, px, Expected(b, k, px), f) == ScanResult(true, Expected(b, k, px + 1).spans)
    ensures !(px == |pixels| - 1 && k == |targets| - 1) ==>
              && px + 1 < |pixels|
              && Run(targets, pixels, px, Expected(b, k, px), f) == Run(targets, pixels, px + 1, Expected(b, k, px + 1), f)
  {
    StepInBlock(pixels, targets, b, k, px, f);
    if px == |pixels| - 1 && k == |targets| - 1 {
      RunAfterComplete(targets, pixels, px, Expected(b, k, px), f);
    } else {
      assert b[k + 1] <= b[|targets|];
      if k + 1 < |targets| { assert b[k + 1] < b[|targets|]; }
      RunAfterNext(targets, pixels, px, Expected(b, k, px), f);
    }
  }

  /** `Run` over the first pixel of block `k + 1`. */
  lemma RunStepOpensBlock(pixels: seq<Triple>, targets: seq<Target>, b: seq<nat>, k: nat, px: nat, f: bool)
    requires |targets| > 0 && Blocks(pixels, targets, b)
    requires k + 1 < |targets| && px == b[k + 1]
    ensures px < |pixels| && WellShaped(targets, Expected(b, k, px))
    ensures f && px == |pixels| - 1 && k + 1 == |targets| - 1 ==>
              Run(targets, pixels, px, Expected(b, k, px), f) == ScanResult(true, Expected(b, k + 1, px + 1).spans)
    ensures !(f && px == |pixels| - 1 && k + 1 == |targets| - 1) ==>
              Run(targets, pixels, px, Expected(b, k, px), f) == Run(targets, pixels, px + 1, Expected(b, k + 1, px + 1), f)
  {
    StepOpensBlock(pixels, targets, b, k, px, f);
    if f && px == |pixels| - 1 && k + 1 == |targets| - 1 {
      RunAfterComplete(targets, pixels, px, Expected(b, k, px), f);
    } else {
      RunAfterNext(targets, pixels, px, Expected(b, k, px), f);
    }
  }

  /** What the scan over blocks reports, as written (`f` false) or corrected (`f` true). */
  function BlocksResult(pixels: seq<Triple>, targets: seq<Target>, b: seq<nat>, f: bool): ScanResult
    requires |targets| > 0 && |b| == |targets| + 1
  {
    var n := |targets|;
    ScanResult(f || n == 1 || b[n - 1] + 1 < b[n] || !targets[n - 1].requirement, BlockSpans(b))
  }

  /**
   * The scan from the expected state at pixel `px < |pixels|` records every
   * block's span; it succeeds unless, as written, it advances onto a
   * required last target at the very last pixel.
   */
  lemma {:induction false} RunOverBlocks(pixels: seq<Triple>, targets: seq<Target>, b: seq<nat>,
                                         k: nat, px: nat, f: bool)
    requires |targets| > 0 && Blocks(pixels, targets, b)
    requires k < |targets| && b[k] <= px <= b[k + 1] && (px > b[k] || px == 0) && px < |pixels|
    ensures WellShaped(targets, Expected(b, k, px))
    ensures Run(targets, pixels, px, Expected(b, k, px), f) == BlocksResult(pixels, targets, b, f)
    decreases |pixels| - px, 1
  {
    if px < b[k + 1] {
      RunInBlock(pixels, targets, b, k, px, f);
    } else {
      RunOpeningBlock(pixels, targets, b, k, px, f);
    }
  }

  /** `RunOverBlocks` when pixel `px` lies inside block `k`. */
  lemma {:induction false} RunInBlock(pixels: seq<Triple>, targets: seq<Target>, b: seq<nat>,
                                      k: nat, px: nat, f: bool)
    requires |targets| > 0 && Blocks(pixels, targets, b)
    requires k < |targets| && b[k] <= px < b[k + 1] && (px > b[k] || px == 0)
    ensures WellShaped(targets, Expected(b, k, px))
    ensures Run(targets, pixels, px, Expected(b, k, px), f) == BlocksResult(pixels, targets, b, f)
    decreases |pixels| - px, 0
  {
    var n := |targets|;
    if px == |pixels| - 1 && k == n - 1 {
      RunEndsInLastBlock(pixels, targets, b, f);
    } else {
      RunStepInBlock(pixels, targets, b, k, px, f);
      RunOverBlocks(pixels, targets, b, k, px + 1, f);
    }
  }

  /** `RunOverBlocks` when pixel `px` is the first of block `k + 1`. */
  lemma {:induction false} RunOpeningBlock(pixels: seq<Triple>, targets: seq<Target>, b: seq<nat>,
                                           k: nat, px: nat, f: bool)
    requires |targets| > 0 && Blocks(pixels, targets, b)
    requires k < |targets| && px == b[k + 1] < |pixels|
    ensures WellShaped(targets, Expected(b, k, px))
    ensures Run(targets, pixels, px, Expected(b, k, px), f) == BlocksResult(pixels, targets, b, f)
    decreases |pixels| - px, 0
  {
    var n := |targets|;
    assert k + 1 < n && b[k + 1] < b[k + 2];
    if px + 1 == |pixels| {
      assert k + 2 == n;
      RunOpensLastBlockAtEnd(pixels, targets, b, f);
    } else {
      RunStepOpensBlock(pixels, targets, b, k, px, f);
      RunOverBlocks(pixels, targets, b, k + 1, px + 1, f);
    }
  }

  /** The last pixel, inside the last block, completes the scan with the block spans. */
  lemma RunEndsInLastBlock(pixels: seq<Triple>, targets: seq<Target>, b: seq<nat>, f: bool)
    requires |targets| > 0 && Blocks(pixels, targets, b)
    requires var n := |targets|; b[n - 1] <= |pixels| - 1 && (|pixels| - 1 > b[n - 1] || |pixels| == 1)
    ensures var n := |targets|;
      && WellShaped(targets, Expected(b, n - 1, |pixels| - 1))
      && Run(targets, pixels, |pixels| - 1, Expected(b, n - 1, |pixels| - 1), f) == BlocksResult(pixels, targets, b, f)
  {
    var n := |targets|;
    var px := |pixels| - 1;
    RunStepInBlock(pixels, targets, b, n - 1, px, f);
    ExpectedAtEnd(b);
    assert n == 1 || b[n - 1] + 1 < b[n];
  }

  /**
   * The last pixel alone makes up the last block: it opens the last target,
   * and only the corrected scan completes there.
   */
  lemma RunOpensLastBlockAtEnd(pixels: seq<Triple>, targets: seq<Target>, b: seq<nat>, f: bool)
    requires |targets| > 1 && Blocks(pixels, targets, b)
    requires b[|targets| - 1] == |pixels| - 1
    ensures var n := |targets|;
      && WellShaped(targets, Expected(b, n - 2, |pixels| - 1))
      && Run(targets, pixels, |pixels| - 1, Expected(b, n - 2, |pixels| - 1), f) == BlocksResult(pixels, targets, b, f)
  {
    var n := |targets|;
    RunStepOpensBlock(pixels, targets, b, n - 2, |pixels| - 1, f);
    ExpectedAtEnd(b);
    if !f {
      RunPastLastBlock(pixels, targets, b, f);
      assert b[n - 1] + 1 == b[n];
    }
  }

  /** Once the line is scanned, the verdict on the block spans is the final check's. */
  lemma RunPastLastBlock(pixels: seq<Triple>, targets: seq<Target>, b: seq<nat>, f: bool)
    requires |targets| > 0 && Blocks(pixels, targets, b)
    ensures var n := |targets|;
      Run(targets, pixels, |pixels|, Expected(b, n - 1, |pixels|), f)
        == ScanResult(!targets[n - 1].requirement, BlockSpans(b))
  {
    var n := |targets|;
    assert b[n - 1] < b[n];
    ExpectedAtEnd(b);
    assert BlockSpans(b)[n - 1].endPixel.Some?;
  }

  /**
   * A line made of one block per target is recognised with every target's
   * span exactly its block. The corrected scan always answers True; the scan
   * as written answers False when there are several targets and the last one
   * is required and covers only the final pixel.
   */
  lemma ScanOverBlocks(pixels: seq<Triple>, targets: seq<Target>, b: seq<nat>)
    requires |targets| > 0 && Blocks(pixels, targets, b)
    ensures ScanCorrected(pixels, targets) == ScanResult(true, BlockSpans(b))
    ensures var n := |targets|;
      Scan(pixels, targets)
        == ScanResult(n == 1 || b[n - 1] + 1 < b[n] || !targets[n - 1].requirement, BlockSpans(b))
  {
    assert b[0] < b[|targets|];
    assert Expected(b, 0, 0) == Initial(targets);
    RunOverBlocks(pixels, targets, b, 0, 0, false);
    RunOverBlocks(pixels, targets, b, 0, 0, true);
  }
}
