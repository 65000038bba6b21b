# Pixel colour-sequence scanner

A model of the pixel colour-sequence scanner. The scanner is `pixelSequenceScan` in
common/ss_PixelScanners.py. It takes one line of sampled RGB pixels and an
ordered list of target-colour descriptors, then makes a single pass over the
pixels with a cursor `cIndex` into the targets. While it scans, it writes each
target's `startPixel`/`endPixel` span into the descriptor objects in place.
It answers whether the line shows the targets in order, under the completion
rules of the source; "## Findings" lists a line that shows them but is
answered False. The model also
covers the descriptor class `PixelColor` of src/ss_ColorClasses.py: its
constructor, `clearColorScanPixels` and the per-channel tolerance comparison
`color_cmp`.

The project is organised in layers:

- `wrappers.dfy`: the `Option` type, standing in for Python's `None`.
- `color_classes.dfy` (module `ColorClasses`) holds:
  - three-channel colours (`Triple`);
  - the tolerance predicate `WithinTolerance`;
  - class `PixelColor`, with the constructor, `ClearColorScanPixels` and
    `ColorCmp` (a loop with an early return, proved against
    `WithinTolerance`).
- `scan_spec.dfy` (module `ScanSpec`) states the scanner as a pure state
  machine:
  - `ColorWithinTolerance` is the scanner's tolerance test.
  - A state is the cursor plus one span per target.
  - `ScanStep` is one iteration of the pixel loop.
  - `Run` consumes the rest of the line.
  - `Scan` is the scanner as written.
  - `ScanCorrected` is the scanner with the defect under "## Findings"
    repaired.
- `scan_properties.dfy` (module `ScanProperties`) proves the scanner's
  guarantees about `Scan` and `ScanCorrected`:
  - the loop invariant;
  - the soundness of every recorded span and of a True verdict;
  - the behaviour with one target and with absent targets.
- `scan_blocks.dfy` (module `ScanBlocks`) computes exactly what both scans
  answer on a line made of one solid block per target.
- `scan_scenarios.dfy` (module `ScanScenarios`) holds concrete lines in the
  red, green and blue of the repository's test images.
- `pixel_scanners.dfy` (module `PixelScanners`) is the scanner as the source
  runs it:
  - a `for` loop over the pixels;
  - a local cursor;
  - field updates on a list of `PixelColor` objects.

  It is proved to end with exactly the verdict and spans of `Scan` (or of
  `ScanCorrected`, when asked to complete on an advance).

A not-required last target must still be matched. The final verdict needs its
`endPixel` to be set (common/ss_PixelScanners.py:121), and a target's span is
only ever set by a pixel that matches it. So for targets `[required A,
not-required B]`, a line where only A appears returns False, as
`ScanProperties.SuccessNeedsEveryTarget` proves for every scan.

## Model

| member | source | states |
|---|---|---|
| ColorClasses.PixelColor.constructor | src/ss_ColorClasses.py:12-23 | stores colour, tolerance and requirement as given; both span fields start at 0, not None |
| ColorClasses.PixelColor.ClearColorScanPixels | src/ss_ColorClasses.py:28-30 | both span fields become None; colour, tolerance and requirement are unchanged |
| ColorClasses.PixelColor.ColorCmp | src/ss_ColorClasses.py:32-37 | True iff every channel c of this colour lies in [other[c] - tol[c], other[c] + tol[c]]; the result does not depend on `mode`, and neither object is modified |
| ColorClasses.ZeroToleranceIsEquality | src/ss_ColorClasses.py:32-37 | with the default zero tolerance the comparison holds iff the two colours are equal |
| ColorClasses.WithinToleranceSymmetric | src/ss_ColorClasses.py:35 | swapping the two colours never changes the comparison's result |
| ColorClasses.WithinToleranceMonotone | src/ss_ColorClasses.py:35 | a match stays a match when each channel's tolerance is raised |
| ScanSpec.ColorWithinTolerance | common/ss_PixelScanners.py:60 | the tolerance test applied to the current target here and to the next target at line 85: a pixel passes iff each of its three channels lies within plus or minus the target's single tolerance of the target colour's channel, i.e. the `color_cmp` rule with tolerance [t, t, t] |
| ScanSpec.Initial | common/ss_PixelScanners.py:49-52 | the state at entry has the cursor on the first target and every target's span None |
| ScanSpec.ScanStep | common/ss_PixelScanners.py:57-116 | one loop iteration keeps the cursor inside [0, len(colors)-1] and one span per target |
| ScanSpec.ScanStepFacts | common/ss_PixelScanners.py:60-116 | the cursor stays, moves on by one, or resets to the initial state; a matching pixel never moves the cursor, sets start only if it was None and always sets end to the pixel; the cursor moves on iff the pixel breaks a started run and matches the next target, whose span becomes exactly that pixel with nothing else changed (lines 85-92); a broken run of a non-last target that is not handed on resets everything when required and changes nothing otherwise (lines 95-107); a broken run of the last target returns early with the state unchanged when required and changes nothing otherwise (lines 109-116); early completion happens only on the last target with its span started, and it happens exactly when the last pixel matches the last target (lines 70-74), when the run of a required last target breaks (lines 111-116), or, in the corrected step, when the last pixel hands the run on to the last target |
| ScanSpec.FinalVerdict | common/ss_PixelScanners.py:121-130 | the check after the whole line never accepts a required last target, and accepts only when the last target's span is no longer cleared (not both fields None) |
| ScanSpec.Run | common/ss_PixelScanners.py:57-130 | the loop from a given pixel on hands back exactly one span per target |
| ScanSpec.RunTouchesLast | common/ss_PixelScanners.py:57-130 | from any state, a True verdict, early or after the final check, comes with the last target's span no longer cleared |
| ScanSpec.Scan | common/ss_PixelScanners.py:49-130 | `pixelSequenceScan` as written, from every span cleared and the cursor at 0: one span per target, and a True verdict only with the last target's span no longer cleared |
| ScanSpec.ScanCorrected | common/ss_PixelScanners.py:49-130 | the same scan with the completion check of line 70 also applied after an advance (lines 90-92): one span per target, and a True verdict only with the last target's span no longer cleared |
| ScanProperties.InitialConsistent | common/ss_PixelScanners.py:49-52 | the entry state, cursor 0 with every span None, satisfies the loop invariant after any prefix of the line |
| ScanProperties.StepKeepsConsistent | common/ss_PixelScanners.py:57-116 | the loop invariant is preserved: targets after the cursor are cleared, those up to it are recorded in order without overlap, each span lies in the line with start <= end on matching end pixels (all pixels matching for a required target), and a required current target's run reaches the previous pixel |
| ScanProperties.ScanSound | common/ss_PixelScanners.py:49-130 | every returned span is cleared or a valid range whose end pixels match its target; True comes only with every target recorded in target order, each required target immediately followed by the next one |
| ScanProperties.MatchedRecordsLast | common/ss_PixelScanners.py:70-125 | whenever the verdict is True the last target has both startPixel and endPixel set |
| ScanProperties.NeverMatchingFirstTarget | common/ss_PixelScanners.py:49-130 | if no pixel matches the first target the verdict is False and every span stays None |
| ScanProperties.SingleTargetScan | common/ss_PixelScanners.py:60-125 | with a single target, required or not, the verdict is True iff some pixel matches it |
| ScanProperties.SuccessNeedsEveryTarget | common/ss_PixelScanners.py:121-130 | a target that no pixel matches, even a not-required one, makes the verdict False |
| ScanProperties.CorrectedStepAgrees | common/ss_PixelScanners.py:85-92 | the corrected loop body reaches the same state as the one as written, and differs only by completing on the last pixel |
| ScanProperties.CorrectionOnlyAddsSuccess | common/ss_PixelScanners.py:70-92 | the corrected scan returns the same spans as the scan as written and accepts every line that it accepts |
| ScanBlocks.ScanOverBlocks | common/ss_PixelScanners.py:57-116 | on a line made of one solid block per target, where each block's first pixel breaks the previous target, every span is exactly its block; the corrected scan answers True, and the scan as written answers False exactly when there are several targets and a required last target covers only the final pixel |
| ScanScenarios.TwoPixelsEach | common/ss_PixelScanners.py:57-116 | red, red, green, green, blue, blue scanned for required red, green, blue gives True with spans (0,1), (2,3), (4,5) |
| ScanScenarios.NoiseResetsRequiredRun | common/ss_PixelScanners.py:95-104 | a foreign pixel after required red resets the scan; red never returns, so the verdict is False with all spans None |
| ScanScenarios.AdvanceOnLastPixelMissesCompletion | common/ss_PixelScanners.py:85-92 | red, green scanned for required red, green: False as written, True with spans (0,0), (1,1) when corrected |
| PixelScanners.ClearColorScanPixels | common/ss_PixelScanners.py:52 | every descriptor's span becomes None and nothing else in the descriptors changes |
| PixelScanners.ScanPixel | common/ss_PixelScanners.py:60-116 | the in-place loop body leaves the descriptors' spans, the cursor and the early-return flag exactly as `ScanStep` says, and never touches colours, tolerances or requirements |
| PixelScanners.ScanColors | common/ss_PixelScanners.py:49-130 | the in-place scan of a list of descriptors returns the verdict and leaves the spans of `Scan` (of `ScanCorrected` when completing on an advance) for their colours, tolerances and requirements, which are unchanged; a True verdict comes with the last target recorded |
| PixelScanners.PixelSequenceScan | common/ss_PixelScanners.py:27-130 | a single descriptor is wrapped into a list and handed back as the same single descriptor, a list as the same list, with the verdict and spans of `Scan` |

## Left out

- `getPixelRow` and `getPixelColumn` read pixels from a PIL image. The model takes the pixel line as its input instead.
- The `logSS` logging calls inside the scanner only write log output and are dropped.
- The `TypeError` raised for a descriptor of the wrong type is a runtime type check. Dafny's types rule it out. The empty list, where the source fails on `colors[0]`, is excluded by `requires |colors| > 0`.
- PixelScanners.ScanColors: requires the descriptor objects in the list to be pairwise distinct. A list holding the same object twice, with its aliasing of span fields, is not modelled.
- PixelScanners.PixelSequenceScan: requires the same pairwise distinctness of the descriptors it hands to `ScanColors`, for the same reason.
- `colorWithinTolerance` and the list-level `clearColorScanPixels` are imported from common/ss_ColorMethods (common/ss_PixelScanners.py:12), which is not part of this model. `colorWithinTolerance` is modelled as the `color_cmp` rule with the target's single scalar tolerance on all three channels. `clearColorScanPixels` is modelled as clearing every descriptor's span in place and returning the same list.
- The descriptor type `ColorScanInstance` and the flag `ColorPure` are imported from common/ss_ColorClasses (common/ss_PixelScanners.py:7), which is not part of this model either.
- `ColorScanInstance` and its `pure == ColorPure.required` flag are modelled by `PixelColor` and its `requirement` boolean.
- Pixel channels, colours and tolerances are unbounded integers. Python's integers are unbounded too, so nothing wraps around.
- The tolerance list of `color_cmp` is modelled as a three-channel value (`Triple`). Lists of another length are not modelled.
- The `__str__` method of `PixelColor` only formats text and is not modelled.

## Findings

| source | as written | input that shows it | evidently intended | confidence | as-written member | corrected member |
|---|---|---|---|---|---|---|
| common/ss_PixelScanners.py:85-92 | when a pixel breaks the current run and matches the next target, the cursor advances with no completion check; if that pixel is the last one and the new target is the last target and required, the loop ends and the final check at line 121 answers False | targets [red required, green required], tolerance 0; pixels [red, green] | True, with red spanning pixel 0 and green pixel 1, as line 70 does when the last pixel matches the last target | not executed; follows from the proved lemmas | ScanSpec.Scan (ScanScenarios.AdvanceOnLastPixelMissesCompletion) | ScanSpec.ScanCorrected (ScanBlocks.ScanOverBlocks, ScanProperties.CorrectionOnlyAddsSuccess) |

The corrected scan applies line 70's completion check after an advance as
well. `ScanBlocks.ScanOverBlocks` proves that it answers True on every line
made of one solid block per target. `ScanProperties.CorrectionOnlyAddsSuccess`
proves that it records the same spans as the scan as written.
`PixelScanners.ScanColors` runs either version in place, selected by its
`completeOnAdvance` argument. `PixelScanners.PixelSequenceScan` keeps the
behaviour as written.
