# IIR6: a 6th-order IIR filter with offset, output limits and hold

This project models the per-sample update of the `IIR6` filter from the
`idsp` signal-processing crate, and proves properties of it in Dafny.

The filter configuration is a value record. It holds:

- 13 taps `ba`: the feed-forward coefficients b0..b6, then the negated
  feed-back coefficients -a1..-a6;
- an output offset;
- a lower and an upper output limit.

The filter state is a 13-slot history array `xy`, owned by the caller. One
update does five things in order:

1. It block-shifts the history one slot older, and the oldest slot falls off.
2. It writes the new input into slot 0.
3. It computes a raw output. Without hold, this is the offset plus the
   weighted sum of all 13 slots. With hold, it is the previous output, which
   the shift has just moved into slot 7.
4. It clamps the raw output to the limits.
5. It stores the result in slot 6 and returns it.

Between two updates, slots 0..5 hold the inputs x0..x5 and slots 6..12 hold
the outputs y0..y6. During the weighted sum the slots hold x0..x6 and then
y1..y6. The doc comment at `src/iir6.rs:10-12` ("seven inputs and six
outputs") describes this second layout.

Files:

- `macc.dfy`, module `MultiplyAccumulate`. The multiply-accumulate
  primitive `Macc`, which is `offset + Dot(x, a)`. `Dot` is a recursive dot
  product, and `DotBack` is an independent back-to-front reference sum.
- `iir6.dfy`, module `Iir6`. It holds:
  - the `Vec13` type;
  - `Clamp`;
  - the history step `Advance`;
  - the record `IIR6`, with `New`, the specification functions `RawOutput`,
    `Output` and `Next`, and the in-place method `Update`;
  - the block shift `ShiftOlder`, a loop over the array;
  - lemmas about one update and about runs of updates (`Run`, `Outputs`).

Samples and taps are Dafny `real`s. The record is a Dafny datatype, which
is immutable, so `Update` (a member method of it) cannot change the
configuration. Only the array `xy` is in its `modifies` clause.

## Model

| member | source | states |
|---|---|---|
| Iir6.Clamp | src/iir6.rs:90 | The result lies in `[lo, hi]`. It equals `x` when `x` is already in range, `lo` below the range and `hi` above it. |
| Iir6.ClampIsNearest | src/iir6.rs:90 | The clamped value is at least as close to `x` as any point of `[lo, hi]`, so clamping saturates the output and never wraps it. |
| Iir6.ClampIdempotent | src/iir6.rs:90 | Clamping an already clamped value into the same limits changes nothing. |
| Iir6.Advance | src/iir6.rs:76-82 | After the shift and the insert, slot 0 holds the new input and slot i (1..12) holds the old slot i-1. The old slot 12 is gone. |
| Iir6.ShiftOlder | src/iir6.rs:80 | The in-place block shift `copy_within(0..n-1, 1)`: each slot 1..n-1 receives the old value of the slot before it, and slot 0 keeps its old value. |
| Iir6.IIR6.New | src/iir6.rs:58-65 | The new record has all 13 taps zero, a zero offset, and exactly the limits it was given. |
| Iir6.IIR6.Update | src/iir6.rs:73-94 | The returned value is `Output` of the old history. The new array is `Next` of the old history: the shifted history with the input in slot 0 and the returned value in slot 6. Only `xy` is modified. |
| Iir6.UpdateFrame | src/iir6.rs:80-92 | After an update, slot 0 holds the new input and slot 6 holds the returned output. Every other slot i (1..12) holds the old slot i-1. |
| Iir6.OldestSlotDropped | src/iir6.rs:76-80 | Two histories that differ only in slot 12 give the same output and the same new history: the oldest sample is discarded. |
| Iir6.OutputWithinLimits | src/iir6.rs:90 | If `y_min <= y_max`, the output lies in `[y_min, y_max]`, with or without hold. |
| Iir6.Saturation | src/iir6.rs:90-92 | A raw output above `y_max` is returned as `y_max` and stored as `y_max`. A raw output below `y_min` is returned and stored as `y_min`. |
| Iir6.DifferenceEquation | src/iir6.rs:76-90 | Without hold, the output is the clamp of the offset plus b0..b6 weighting the new input and the old slots 0..5, plus -a1..-a6 weighting the old slots 6..11, which hold the previous outputs. |
| Iir6.HoldOutput | src/iir6.rs:84-90 | With hold, the output is the clamp of the old slot 6, the previous output. If that value is already within the limits, it is returned unchanged. |
| Iir6.HoldRepeatsPrevious | src/iir6.rs:84-92 | After any update, a held update with the same record returns exactly the previous output. It still records its own input in slot 0 and ages the previous input into slot 1. |
| Iir6.ZeroTapsInert | src/iir6.rs:87-90 | With all taps zero and no hold, the output is `clamp(y_offset, y_min, y_max)` for every history and every input. |
| Iir6.NewIsInert | src/iir6.rs:58-64 | A record made by `new` outputs `clamp(0, y_min, y_max)` without hold, for every history and every input. |
| Iir6.PassThrough | src/iir6.rs:87-90 | With b0 = 1, all other taps zero and a zero offset, an input within the limits is returned unchanged. |
| Iir6.UpdateKeepsOutputsWithin | src/iir6.rs:90-92 | If the output half of the history (slots 6..12) lies within the limits, it still does after an update. The history only ever stores clamped outputs. |
| Iir6.RunKeepsOutputsWithin | src/iir6.rs:90-92 | The same holds after any sequence of updates with one record. This is the buffer-level form of the anti-windup property. |
| Iir6.RunOutputsWithinLimits | src/iir6.rs:90-93 | Every output returned during a run lies within the limits. |
| Iir6.ZeroTapsRunInert | src/iir6.rs:87-90 | With all taps zero and no hold, every output of a run is `clamp(y_offset, y_min, y_max)`. |
| Iir6.RunRecordsInputs | src/iir6.rs:80-82 | After a run, slot i (0..5) holds the input of the i-th most recent update, held or not. |
| Iir6.RunRecordsOutputs | src/iir6.rs:90-93 | After a run, slot 6+j (j = 0..6) holds the output returned by the j-th most recent update. |
| Iir6.HistoryIndependentOfConfiguration | src/iir6.rs:35-37 | Updating one history with the same input under any two records and hold flags gives the same new content in every slot except slot 6. The history holds plain samples, so a record can be replaced between updates without adjusting it. |
| MultiplyAccumulate.DotOrderIndependent | src/iir6.rs:87 | The front-to-back dot product equals the back-to-front one, so the weighted sum does not depend on summation order. |
| MultiplyAccumulate.DotSymmetric | src/iir6.rs:87 | The dot product is symmetric, so `macc(y_offset, xy, ba)` weights slot k by tap k whichever argument holds the taps. |
| MultiplyAccumulate.DotAppend | src/iir6.rs:87 | The dot product of two concatenations is the sum of the two parts' dot products. This splits the sum into its feed-forward and feed-back parts. |
| MultiplyAccumulate.DotZeroWeights | src/iir6.rs:87 | With all weights zero, the dot product is zero for any samples. |
| MultiplyAccumulate.DotUnitWeight | src/iir6.rs:87 | With weight 1 at index k and every other weight zero, the dot product is the sample at k. |

## Left out

- Floating-point behaviour is not modelled: NaN, infinities, rounding and
  summation order. Samples and taps are `real`. `T: Float` is only a
  capability bound.
- The code of `macc` (`super::macc`, imported at `src/iir6.rs:4`) is not
  part of this model. `Macc` specifies it by its contract,
  `offset + sum of x[i] * a[i]` over two sequences of equal length. Its
  behaviour on arguments of unequal lengths is not modelled.
- `num_traits::clamp` is modelled as a three-way clamp, in the order
  "below min, above max, otherwise unchanged". `Clamp`, `Output`, `Next` and
  `Update` require `y_min <= y_max`. The library checks this only with a
  debug assertion. What a release build does with inverted limits is not
  modelled.
- Serde and Miniconf serialization and the atomic live-configuration derive
  are not modelled (`src/iir6.rs:1-2`, `src/iir6.rs:49`). They are foreign
  derive macros. Tear-free publication of the record is the caller's
  concern, so the encode/decode round trip is out of the model as well.
- `debug_assert!(xy.len() == n)` (`src/iir6.rs:75`) becomes the
  precondition `xy.Length == 13` on `Update`. In the Rust source the array
  type fixes the length.
- The control-theoretic claims in the doc comment are not proved as
  dynamics (`src/iir6.rs:23-37`): universality of the transfer function,
  anti-windup, the equivalence of input and output offsets, and bump-less
  transfer. Only their buffer-level consequences are proved: the history
  stores only clamped outputs and plain samples.
- PassThrough: a pass-through with infinite limits has no counterpart over
  the reals. The lemma therefore requires the input to lie within finite
  limits.
- HoldRepeatsPrevious: states that the previous output is repeated only when
  the record is unchanged since that output. After a change of limits, the
  held output is the previous output clamped to the new limits
  (`HoldOutput`).
