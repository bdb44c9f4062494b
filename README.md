# Listen-Attend-Spell: the discrete core, modelled in Dafny

This project models the non-neural parts of the Listen-Attend-Spell speech
recogniser in `asr/models/las/network.py` and proves properties of them:

- **Decoder** (`decoder.dfy`): the Speller's checks on the start and end
  symbol ids, and the attention mask built from encoder lengths. It also
  models the decode loop:
  - a ring buffer of `NumEos = 3` end-of-sequence indicators per sample;
  - the rule that freezes a sample's length at `t + 1` once its last three
    arg-max labels are the end symbol;
  - early termination once every sample is frozen;
  - the choice of the next decoder input: the network's own output, a
    target column, or the end one-hot.
- **Scheduler** (`scheduler.dfy`): the teacher-forcing ratio scheduler. It
  holds the ratio at the upper bound during warm-up, declines it linearly to
  the lower bound, then holds it there. Its epoch counter can restart. The
  model also covers its state dictionary.
- **Shapes** (`shapes.dfy`): the tensor-shape arithmetic. This covers
  `split_last` and `merge_last` (used to split attention heads), the
  Listener's convolution and pooling extents (129 frequency bins become
  17 × 256 features), and the time-distributed wrapper `SequenceWise`.
- **Las** (`las.dfy`): the top-level model. This covers:
  - the label layout (blank 0, start `size - 2`, end `size - 1`);
  - the training batch filter and target construction;
  - matching the time axes of predictions and targets;
  - the evaluation length adjustment, and dropping the start/end columns.

The network is abstracted as follows. The decode loop takes the trace of
arg-max labels `preds[t][b]`, the label the network emits for sample `b` at
step `t`. The sampling coin `np.random.random_sample() < tfr` takes its
uniform draws as the input `draws[t]`. Both `Decoder.Speller.Forward` and
the ring buffer use in-place state. The ring buffer is a `bool` `array2`.
The length vector is an `array`. The Speller and the scheduler are classes.
`TFRScheduler.Step` writes the ratio into the Speller it holds.

Notes on the code's behaviour, which the model follows:

- A draw below `tfr` feeds the **target** column, so the network's own
  output is fed back only when the draw is at or above `tfr` (lines 316-319).
- The fallback to the end one-hot happens when `t` is at least the **padded**
  time extent of the targets, `y.size(1)` (line 318). That extent is the
  common width of the batch, not the sample's own length.
- With restart enabled, the counter is set to -1 at `endEpochs` and then
  advanced in the same step (lines 359-362). So the epoch after `endEpochs`
  is 0.
- The padded width of the training targets is the maximum over **all**
  samples of the batch. Padding happens at line 424, before the filter is
  applied at line 425.

## Model

| member | source | states |
|---|---|---|
| Decoder.CheckIds | asr/models/las/network.py:237-239 | success exactly when both ids are given, lie in [0, labelVecSize) and differ; each error is returned exactly when its assertion is the first to fail, in source order (start id, end id, distinctness) |
| Decoder.SliceStart | asr/models/las/network.py:271 | the start of `row[s:]` is clamped to the row; a non-negative start within the row is kept as is |
| Decoder.Speller.constructor | asr/models/las/network.py:232-246 | accepts only ids that pass the three assertions; the ratio starts at 1 |
| Decoder.Speller.GetMask | asr/models/las/network.py:267-272 | fresh bs × ts mask; entry (b, j) is 1 exactly before the slice start of seqLens[b], so for a non-negative length exactly at positions below it |
| Decoder.FirstRun | asr/models/las/network.py:305-310 | the first step that closes a run of NumEos end symbols for a sample, and no earlier step does |
| Decoder.DecodedLen | asr/models/las/network.py:305-310 | a sample's recorded length after n steps: one past the step that closes its first run of NumEos end symbols, else max_seq_lens; the properties are in FirstRunStable, LengthChangesOnce and FrozenLength |
| Decoder.FirstStop | asr/models/las/network.py:312-314 | the first step after which the whole batch is frozen, and no earlier step has that property |
| Decoder.Steps | asr/models/las/network.py:295-314 | the number of steps the loop emits: one past the first stop, else max_seq_lens; StepsIsLongest, LengthsWithinSteps and EmptyBatchStopsAtOnce state what it is |
| Decoder.LongestLen | asr/models/las/network.py:289-314 | the largest final recorded length over the batch, attained by some sample |
| Decoder.IsSampleStep | asr/models/las/network.py:274-275 | the sampling coin: true exactly when the uniform draw is below the ratio; NextInput and Feeds state how it picks the next input |
| Decoder.NextInput | asr/models/las/network.py:316-321 | own output exactly when there are no targets or the coin says no; a target column exactly when sampling with t below the target extent; else the end one-hot |
| Decoder.WindowCovers | asr/models/las/network.py:306 | every row index t % NumEos of the ring buffer belongs to exactly one of the last NumEos steps |
| Decoder.RingColumn | asr/models/las/network.py:306-310 | the product of a ring-buffer column is 1 exactly when the last NumEos steps all emitted the end symbol |
| Decoder.FirstRunStable | asr/models/las/network.py:307-310 | a frozen length is never overwritten by later steps (the `gt(t)` guard) |
| Decoder.LengthChangesOnce | asr/models/las/network.py:306-310 | per step a length either stays or changes once, from the maximum to t+1, at the step that closes the first run |
| Decoder.FrozenLength | asr/models/las/network.py:306-310 | a length other than the maximum is at least NumEos and the NumEos labels just before it are the end symbol |
| Decoder.LengthsWithinSteps | asr/models/las/network.py:289-314 | the number of emitted steps is at most max_seq_lens and bounds every final length |
| Decoder.StepsIsLongest | asr/models/las/network.py:295-314 | in a non-empty batch the loop emits exactly as many steps as the longest final length |
| Decoder.EmptyBatchStopsAtOnce | asr/models/las/network.py:312-314 | an empty batch terminates after the first step |
| Decoder.RecordEos | asr/models/las/network.py:306 | writing row t % NumEos keeps the ring-buffer invariant for the next step |
| Decoder.DecodeStep | asr/models/las/network.py:305-314 | one step's bookkeeping keeps the ring-buffer invariant, makes the length array equal to DecodedLens after one more step, and answers the early-termination test |
| Decoder.Decode | asr/models/las/network.py:295-321 | the loop runs until every length is at most the steps taken or for max_seq_lens steps; on exit the length array holds the specified lengths and the inputs consumed are the start symbol and each earlier step's choice |
| Decoder.StepsFromIsSteps | asr/models/las/network.py:295-314 | scanning forward from a step at which the loop is still running finds the number of steps the loop emits |
| Decoder.Feeds | asr/models/las/network.py:316-321 | the first input is the start symbol; input k+1 is the choice made after step k |
| Decoder.FreezeLengths | asr/models/las/network.py:307-310 | updating the length array keeps it equal to the specified lengths after one more step |
| Decoder.Speller.Forward | asr/models/las/network.py:277-326 | emits Steps steps, at least one and at most max_seq_lens; the lengths are the first-run lengths after those steps; the inputs consumed are the start symbol and then the choice made after each earlier step |
| Scheduler.Ratio | asr/models/las/network.py:349-356 | get_tfr over the scheduler's fields; RatioInRange, RatioNonIncreasing and RatioPhases state its range, monotonicity and phases |
| Scheduler.NextEpoch | asr/models/las/network.py:358-362 | the counter after one step: an explicit epoch wins, otherwise one more, after a reset to -1 at endEpochs when restart is on; the Counter lemmas and RestartCycles state its behaviour over many steps |
| Scheduler.DeclineInRange | asr/models/las/network.py:353-354 | during the decline the ratio lies between lower and upper |
| Scheduler.RatioInRange | asr/models/las/network.py:349-356 | for a scheduler built by the constructor the ratio always lies in [lower, upper] |
| Scheduler.RatioNonIncreasing | asr/models/las/network.py:349-356 | the ratio never increases as the epoch grows |
| Scheduler.RatioPhases | asr/models/las/network.py:349-356 | upper before warm-up ends, lower from endEpochs on, the straight line from upper to lower in between |
| Scheduler.RestartCycles | asr/models/las/network.py:358-362 | with restart an argument-less step keeps the counter in [0, endEpochs] and wraps to 0 after endEpochs |
| Scheduler.CounterWithoutRestart | asr/models/las/network.py:341-363 | without restart the counter after n steps is n - 1 |
| Scheduler.CounterWithRestartFirstCycle | asr/models/las/network.py:341-363 | with restart the first endEpochs+1 steps count 0 .. endEpochs |
| Scheduler.CounterWithRestartPeriodic | asr/models/las/network.py:358-363 | with restart the counter repeats with period endEpochs+1 |
| Scheduler.Export | asr/models/las/network.py:343-344 | the state dictionary holds every field except the decoder reference; LoadExportRestores states that loading it restores them |
| Scheduler.Update | asr/models/las/network.py:346-347 | a present key overwrites its field and an absent key keeps it; LoadExportRestores states the round trip with Export |
| Scheduler.LoadExportRestores | asr/models/las/network.py:343-347 | loading an exported state restores every exported field |
| Scheduler.TFRScheduler.constructor | asr/models/las/network.py:331-341 | requires 0 <= lower <= upper < 1 and a non-zero epoch count; sets endEpochs = epochs + warmUp, the slope and the counter -1 |
| Scheduler.TFRScheduler.GetTfr | asr/models/las/network.py:349-356 | for a scheduler whose fields have the constructor's relations the ratio lies in [lower, upper] |
| Scheduler.TFRScheduler.Step | asr/models/las/network.py:358-364 | the counter's new value; no other field changes; the Speller's ratio becomes the schedule's value, within [lower, upper] |
| Scheduler.TFRScheduler.LoadState | asr/models/las/network.py:346-347 | every field present in the dictionary is overwritten, every other one kept |
| Scheduler.TFRScheduler.ExportState | asr/models/las/network.py:343-344 | loading this dictionary into any scheduler gives it exactly this scheduler's fields |
| Shapes.SplitLast | asr/models/las/network.py:180-186 | a successful split keeps the leading dimensions, the element count and every explicit entry; more than one -1 fails |
| Shapes.MergeLast | asr/models/las/network.py:189-193 | succeeds exactly when 1 < n < rank and the leading product is non-zero; the result is the leading dimensions and the product of the merged ones |
| Shapes.SplitExact | asr/models/las/network.py:180-186 | a shape without -1 whose product is the last dimension is used as given |
| Shapes.SplitHeads | asr/models/las/network.py:180-186 | splitting (b, s, d) into [h, -1] gives (b, s, h, d/h) when h divides d |
| Shapes.MergeAfterSplit | asr/models/las/network.py:180-193 | merging the split dimensions restores the original shape |
| Shapes.SplitAfterMerge | asr/models/las/network.py:180-193 | splitting a merged dimension by the merged shape restores the original shape |
| Shapes.Stage | asr/models/las/network.py:62-72 | one convolution-and-pooling stage: the given channel count, the frequency extent pooled by stride 2, the time extent unchanged; ListenerFeatures and ListenerWidth state the three stages' result |
| Shapes.Halve | asr/models/las/network.py:64 | the frequency extent after the (3, 1) pooling with stride 2 and padding 1; HalveNPow states that it takes 2m + 1 bins to m + 1 |
| Shapes.ListenerFeatures | asr/models/las/network.py:62-75 | three stages give 256 channels, keep the time extent and halve the frequency extent three times |
| Shapes.HalveNPow | asr/models/las/network.py:53-57 | n pooling stages take 2^n m + 1 bins to m + 1 |
| Shapes.ListenerWidth | asr/models/las/network.py:51-59 | 129 bins end as 17 bins of 256 channels, so the collapsed width is H0 = 4352 |
| Shapes.FlattenLength | asr/models/las/network.py:29 | flattening (T, N) gives T·N rows |
| Shapes.SequenceWise | asr/models/las/network.py:27-32 | for a row-wise module, the result has the input's shape and each element is the module applied to the matching input element |
| Shapes.UnflattenMapFlatten | asr/models/las/network.py:29-31 | reshaping the mapped flat rows gives the row-wise map of each time step |
| Las.LasVocab | asr/models/las/network.py:384-387 | size = labels + 2, blank 0, start size-2, end size-1; these ids always pass the Speller's checks |
| Las.Keep | asr/models/las/network.py:413 | the filter on one sample: more frames than labels and fewer labels than max_seq_lens; KeptIndices states which samples it keeps |
| Las.KeptIndices | asr/models/las/network.py:413-425 | exactly the samples with more frames than labels and fewer labels than max_seq_lens, in increasing order |
| Las.ShortInputDropped | asr/models/las/network.py:413-416 | in a batch with lengths x = [50, 30] and y = [5, 40], only the first sample is kept |
| Las.Segments | asr/models/las/network.py:423 | the label stream cut into one piece per sample, piece i of length yLens[i]; SegmentAt and SegmentsConcat state its contents |
| Las.SegmentAt | asr/models/las/network.py:423 | piece i of the split label stream is the slice after the lengths before it |
| Las.SegmentsConcat | asr/models/las/network.py:423 | joining the pieces gives back the label stream |
| Las.TargetRow | asr/models/las/network.py:422-424 | one padded target row; TargetRowContents and TargetRowRoundTrip state its contents |
| Las.PrepareTargets | asr/models/las/network.py:422-425 | the common width is the longest label count over the whole batch plus NumEos; one row per kept sample, each of that width |
| Las.TargetRowContents | asr/models/las/network.py:422-425 | row j is kept sample k's labels, NumEos end symbols, then blanks; its length is yLen + NumEos, its encoder length is sample k's |
| Las.TargetRowRoundTrip | asr/models/las/network.py:422-425 | stripping end symbols and padding from a row gives back the sample's labels |
| Las.Reconcile | asr/models/las/network.py:437-444 | both sides reach the larger time extent, their prefixes are unchanged, and the shorter side is padded with its pad value |
| Las.BlankPadIsBlank | asr/models/las/network.py:439-440 | the padding distribution appended to predictions reads as blank |
| Las.EvalLengthsAsWritten | asr/models/las/network.py:454 | the adjustment as written returns the decoder's lengths unchanged; EvalLengthsAsWrittenKeepsEos and EvalLengthsAsWrittenDiffers state the discrepancy |
| Las.EvalLengths | asr/models/las/network.py:454 | the intended adjustment: one entry per sample, NumEos less for every sample that stopped; EvalLengthsCountLabels states what the result counts |
| Las.EvalLengthsCountLabels | asr/models/las/network.py:454 | corrected adjustment: a stopped sample's length becomes the step where its end-symbol run starts, not negative, with the NumEos emitted steps from there all end symbols |
| Las.EvalLengthsAsWrittenKeepsEos | asr/models/las/network.py:454 | as written, a sample that stopped after 5 steps keeps length 5 where 2 is intended |
| Las.EvalLengthsAsWrittenDiffers | asr/models/las/network.py:454 | as written, the lengths differ from the intended ones whenever some sample stopped |
| Las.DropAux | asr/models/las/network.py:457 | the result has two entries fewer than the distribution (none when it is shorter than two) and keeps every entry it has at its position |
| Las.DropAuxKeepsBaseLabels | asr/models/las/network.py:384-457 | for the model's layout the kept columns are exactly the base labels, blank included, and neither start nor end |
| Las.TrainForward | asr/models/las/network.py:411-447 | the targets of the filtered batch; the decoder driven by them (target extent = common width); arg-max predictions and targets brought to one time extent, padded with blank |
| Las.EvalForward | asr/models/las/network.py:449-458 | the decoder without targets, so every step after the first feeds back its own output; the returned lengths are the decoder's own, unchanged as line 454 leaves them, between 0 and the emitted steps; intended holds the corrected lengths, also between 0 and the emitted steps |

## Left out

- Neural layers are not modelled: convolutions, recurrent layers, layer
  norm, linear layers, softmax, `MaskedSoftmax`, `Attention` and the scores
  of `MultiHeadedSelfAttention`. Their values are floating-point tensors.
  The decode loop sees them only through the arg-max trace `preds`.
- `LogWithLabelSmoothing`, the random floor and noise on the one-hot targets,
  and the log of the predictions are not modelled. They are floating-point
  arithmetic.
- Randomness is a parameter. `np.random.random_sample()` in the sampling coin
  is the input sequence `draws`.
- Packing and unpacking of padded sequences, summing the two directions of
  the bidirectional recurrent layer, moving tensors to the GPU, and the
  returned attention maps are not modelled.
- The logger warning when no sample survives the filter is not modelled.
  It is I/O. The `regions` field is not modelled either. `__repr__` is a
  display helper and is not modelled.
- `asr.utils.misc` (`int2onehot`, `onehot2int`) is not part of this model.
  `Las.OneHot` and `Las.ArgMax` stand for the one-hot of a label and the
  arg-max of a distribution.
- Decoder.Speller.Forward: does not call GetMask. In the source the mask
  only feeds the attention, which is abstracted away.
- Decoder.Speller.Forward: requires max_seq_lens > 0. With 0 steps the
  source's final `torch.cat` of an empty list raises.
- Decoder.Speller.constructor: the defaults at lines 242-243 are not
  modelled. The assertions before them make them unreachable.
- Shapes.SplitLast: `int(x / -prod)` is modelled as integer division
  truncated toward zero. The source divides in floating point first, so
  extents beyond 2^53 are not modelled.
- Shapes.SequenceWise: requires T > 0 and N > 0. With zero rows the
  source's `view(t * n, -1)` cannot infer the -1 extent and raises.
- Las.PrepareTargets: requires a non-empty batch. The source raises when it
  pads an empty list of targets.
- Scheduler.TFRScheduler.constructor: requires epochs != 0. The source's
  slope divides by epochs (line 339) and raises ZeroDivisionError.
- Decoder.Speller.GetMask: requires bs <= |seqLens|. The source's
  `seq_lens[b]` (line 271) raises IndexError for a shorter length vector.
- Las.Segments: requires Sum(yLens) == |y|, and so do Las.PrepareTargets
  and Las.TrainForward. `torch.split` (line 423) raises when the lengths do
  not add up to the stream's length.
- Shapes.SplitLast: requires at least one dimension. `size(-1)` of a
  0-dimensional tensor (line 185) raises.
- Shapes.SequenceWise: the wrapped module is modelled as a function of one
  row, applied row by row. The model does not cover a wrapped module that
  looks across rows, such as `MaskedSoftmax` (line 148), whose maximum at
  line 124 is taken over the whole flattened tensor.
- Scheduler.Ratio: the ratio, the slope and the draws are exact Dafny reals.
  The source computes them in float64: the division at line 339, the
  product at line 354 and the comparison at line 275. Rounding is not
  modelled.
- Scheduler.TFRScheduler.LoadState: loads only the seven known fields.
  The source's `__dict__.update` accepts any key.
- Las.TrainForward: does not model the model's `training` flag or the
  `forward` dispatch. Training and evaluation are two separate methods.

## Findings

| source | as written | input that shows it | evidently intended | confidence | as-written member | corrected member |
|---|---|---|---|---|---|---|
| asr/models/las/network.py:454 | boolean-mask indexing returns a copy, so the in-place subtraction of NumEos is lost and the returned lengths still count the three end symbols | one sample that stopped after 5 steps with max_seq_lens 256: the length stays 5 | stopped samples' lengths reduced by NumEos (5 becomes 2), as the comment on line 456 says | not executed | Las.EvalLengthsAsWritten (Las.EvalLengthsAsWrittenKeepsEos, Las.EvalLengthsAsWrittenDiffers; the lengths Las.EvalForward returns) | Las.EvalLengths (Las.EvalLengthsCountLabels; the intended lengths of Las.EvalForward) |
