/**
 * The discrete control of the Listen-Attend-Spell decoder (the Speller):
 * the checks of its constructor, the attention mask built from encoder lengths,
 * and the decode loop: the ring buffer of end-of-sequence indicators, the rule
 * that freezes a sample's length, early termination and the choice of the next
 * decoder input. The neural step itself is abstracted: the loop consumes the
 * arg-max label that the network emits for each sample at each step.
 */
module Decoder {
  import opened Wrappers

  /** Length of the trailing end-of-sequence run that stops a sample (num_eos). */
  const NumEos: nat := 3

  // ---------------------------------------------------------------------------
  // Constructor checks
  // ---------------------------------------------------------------------------

  /** Which of the constructor's three assertions fails first. */
  datatype ConfigError = SosInvalid | EosInvalid | SosEqualsEos

  /**
   * The assertions on the start and end symbol ids, checked in source order:
   * both are given, both lie in [0, labelVecSize), and they differ.
   */
  function CheckIds(labelVecSize: int, sos: Option<int>, eos: Option<int>): (r: Result<(nat, nat), ConfigError>)
    ensures r.Success? <==>
              sos.Some? && eos.Some? && 0 <= sos.value < labelVecSize && 0 <= eos.value < labelVecSize
              && sos.value != eos.value
    ensures r.Success? ==> r.value.0 == sos.value && r.value.1 == eos.value
    ensures r == Failure(SosInvalid) <==> sos.None? || !(0 <= sos.value < labelVecSize)
    ensures r == Failure(EosInvalid) <==>
              sos.Some? && 0 <= sos.value < labelVecSize && (eos.None? || !(0 <= eos.value < labelVecSize))
    ensures r == Failure(SosEqualsEos) <==>
              sos.Some? && eos.Some? && 0 <= sos.value < labelVecSize && 0 <= eos.value < labelVecSize
              && sos.value == eos.value
  {
    if sos.None? || !(0 <= sos.value < labelVecSize) then Failure(SosInvalid)
    else if eos.None? || !(0 <= eos.value < labelVecSize) then Failure(EosInvalid)
    else if sos.value == eos.value then Failure(SosEqualsEos)
    else Success((sos.value, eos.value))
  }

  // ---------------------------------------------------------------------------
  // Attention mask
  // ---------------------------------------------------------------------------

  /** Where the slice `row[s:]` of a row of length n starts (negative starts count from the end). */
  function SliceStart(s: int, n: nat): (k: nat)
    ensures k <= n
    ensures 0 <= s <= n ==> k == s
    ensures n <= s ==> k == n
  {
    if s < 0 then (if n + s < 0 then 0 else n + s)
    else if s < n then s
    else n
  }

  // ---------------------------------------------------------------------------
  // Specification of the decode loop
  // ---------------------------------------------------------------------------

  /** The network's arg-max label for sample b at step k is the end symbol. */
  predicate IsEos(preds: seq<seq<int>>, eos: int, k: int, b: int)
  {
    0 <= k < |preds| && 0 <= b < |preds[k]| && preds[k][b] == eos
  }

  /** Steps t-NumEos+1 .. t all emitted the end symbol for sample b: every row of the ring buffer is set. */
  predicate EosRun(preds: seq<seq<int>>, eos: int, t: nat, b: nat)
  {
    NumEos <= t + 1 && forall k :: t + 1 - NumEos <= k <= t ==> IsEos(preds, eos, k, b)
  }

  /** The first step among the first n at which sample b completes an end-of-sequence run. */
  function FirstRun(preds: seq<seq<int>>, eos: int, b: nat, n: nat): (r: Option<nat>)
    ensures r.Some? ==> r.value < n && EosRun(preds, eos, r.value, b)
    ensures r.Some? ==> forall k :: 0 <= k < r.value ==> !EosRun(preds, eos, k, b)
    ensures r.None? ==> forall k :: 0 <= k < n ==> !EosRun(preds, eos, k, b)
  {
    if n == 0 then None
    else match FirstRun(preds, eos, b, n - 1)
      case Some(k) => Some(k)
      case None => if EosRun(preds, eos, n - 1, b) then Some(n - 1) else None
  }

  /** The recorded length of sample b after n steps: step+1 of its first run, else the maximum. */
  function DecodedLen(preds: seq<seq<int>>, eos: int, maxLen: nat, b: nat, n: nat): int
  {
    match FirstRun(preds, eos, b, n)
    case Some(k) => k + 1
    case None => maxLen
  }

  /** After n steps every sample of the batch has a recorded length of at most n. */
  predicate Frozen(preds: seq<seq<int>>, eos: int, maxLen: nat, batch: nat, n: nat)
  {
    forall b :: 0 <= b < batch ==> DecodedLen(preds, eos, maxLen, b, n) <= n
  }

  /** The early-termination test after step t. */
  predicate AllFrozen(preds: seq<seq<int>>, eos: int, maxLen: nat, batch: nat, t: nat)
  {
    Frozen(preds, eos, maxLen, batch, t + 1)
  }

  /** The first step among the first n after which the whole batch is frozen. */
  function FirstStop(preds: seq<seq<int>>, eos: int, maxLen: nat, batch: nat, n: nat): (r: Option<nat>)
    ensures r.Some? ==> r.value < n && AllFrozen(preds, eos, maxLen, batch, r.value)
    ensures r.Some? ==> forall k :: 0 <= k < r.value ==> !AllFrozen(preds, eos, maxLen, batch, k)
    ensures r.None? ==> forall k :: 0 <= k < n ==> !AllFrozen(preds, eos, maxLen, batch, k)
  {
    if n == 0 then None
    else match FirstStop(preds, eos, maxLen, batch, n - 1)
      case Some(k) => Some(k)
      case None => if AllFrozen(preds, eos, maxLen, batch, n - 1) then Some(n - 1) else None
  }

  /** How many steps the decoder emits: up to and including the first stop, else all maxLen. */
  function Steps(preds: seq<seq<int>>, eos: int, maxLen: nat, batch: nat): nat
  {
    match FirstStop(preds, eos, maxLen, batch, maxLen)
    case Some(t) => t + 1
    case None => maxLen
  }

  /** The steps the loop emits when it reaches step t still running: the first stop from t on, else maxLen. */
  function StepsFrom(preds: seq<seq<int>>, eos: int, maxLen: nat, batch: nat, t: nat): nat
    decreases maxLen - t
  {
    if maxLen <= t then maxLen
    else if AllFrozen(preds, eos, maxLen, batch, t) then t + 1
    else StepsFrom(preds, eos, maxLen, batch, t + 1)
  }

  /** The recorded lengths of the whole batch after n steps. */
  function DecodedLens(preds: seq<seq<int>>, eos: int, maxLen: nat, batch: nat, n: nat): (lens: seq<int>)
    ensures |lens| == batch
    ensures forall b: nat :: b < batch ==> lens[b] == DecodedLen(preds, eos, maxLen, b, n)
  {
    seq(batch, b requires 0 <= b < batch => DecodedLen(preds, eos, maxLen, b, n))
  }

  /** The longest final recorded length over the batch (0 for an empty batch). */
  function LongestLen(preds: seq<seq<int>>, eos: int, maxLen: nat, batch: nat): (m: int)
    ensures forall b :: 0 <= b < batch ==> DecodedLen(preds, eos, maxLen, b, maxLen) <= m
    ensures batch > 0 ==> exists b :: 0 <= b < batch && DecodedLen(preds, eos, maxLen, b, maxLen) == m
    ensures batch == 0 ==> m == 0
  {
    if batch == 0 then 0
    else
      var rest := LongestLen(preds, eos, maxLen, batch - 1);
      var last := DecodedLen(preds, eos, maxLen, batch - 1, maxLen);
      if batch == 1 || rest < last then last else rest
  }

  /** What the decoder consumes at a step: the start one-hot, its own output, a target column, or the end one-hot. */
  datatype Feed = StartSymbol | OwnPrediction | GroundTruth(step: nat) | EosSymbol

  /** The sampling coin: a uniform draw below the teacher-forcing ratio. */
  predicate IsSampleStep(draw: real, tfr: real)
  {
    draw < tfr
  }

  /** The input chosen after step t; yTime is the time extent of the targets. */
  function NextInput(hasTargets: bool, sample: bool, t: nat, yTime: nat): (f: Feed)
    ensures f != StartSymbol
    ensures f == OwnPrediction <==> !hasTargets || !sample
    ensures f.GroundTruth? <==> hasTargets && sample && t < yTime
    ensures f.GroundTruth? ==> f.step == t
    ensures f == EosSymbol <==> hasTargets && sample && yTime <= t
  {
    if !hasTargets || !sample then OwnPrediction
    else if t < yTime then GroundTruth(t)
    else EosSymbol
  }

  /** The inputs consumed by the first n+1 steps: the start symbol, then the choice made after each step. */
  function Feeds(hasTargets: bool, draws: seq<real>, tfr: real, yTime: nat, n: nat): (r: seq<Feed>)
    requires n <= |draws|
    ensures |r| == n + 1 && r[0] == StartSymbol
    ensures forall k :: 0 <= k < n ==> r[k + 1] == NextInput(hasTargets, IsSampleStep(draws[k], tfr), k, yTime)
  {
    if n == 0 then [StartSymbol]
    else Feeds(hasTargets, draws, tfr, yTime, n - 1) + [NextInput(hasTargets, IsSampleStep(draws[n - 1], tfr), n - 1, yTime)]
  }

  // ---------------------------------------------------------------------------
  // Lemmas about the decode loop
  // ---------------------------------------------------------------------------

  /** Every residue modulo NumEos is the row of exactly one step of the last NumEos steps. */
  lemma WindowCovers(t: nat, r: nat) returns (k: nat)
    requires NumEos <= t + 1 && r < NumEos
    ensures t + 1 - NumEos <= k <= t && k % NumEos == r
    ensures forall k' :: t + 1 - NumEos <= k' <= t && k' % NumEos == r ==> k' == k
  {
    k := t - (t - r) % NumEos;
  }

  /**
   * Once the row of step t is written, the product of a column of the ring buffer
   * is 1 exactly when the last NumEos steps all emitted the end symbol.
   */
  lemma RingColumn(bi: array2<bool>, preds: seq<seq<int>>, eos: int, t: nat, b: nat)
    requires bi.Length0 == NumEos && b < bi.Length1
    requires t < |preds| && forall k :: 0 <= k < |preds| ==> b < |preds[k]|
    requires forall k :: 0 <= k <= t && t < k + NumEos ==> bi[k % NumEos, b] == (preds[k][b] == eos)
    requires forall r :: t < r < NumEos ==> !bi[r, b]
    ensures (forall r :: 0 <= r < NumEos ==> bi[r, b]) <==> EosRun(preds, eos, t, b)
  {
    if forall r :: 0 <= r < NumEos ==> bi[r, b] {
      assert bi[NumEos - 1, b];
      forall k | t + 1 - NumEos <= k <= t
        ensures IsEos(preds, eos, k, b)
      {
        assert bi[k % NumEos, b];
      }
    }
    if EosRun(preds, eos, t, b) {
      forall r | 0 <= r < NumEos
        ensures bi[r, b]
      {
        var k := WindowCovers(t, r);
        assert IsEos(preds, eos, k, b);
      }
    }
  }

  /** A frozen length is never overwritten: later steps keep the same first run. */
  lemma FirstRunStable(preds: seq<seq<int>>, eos: int, b: nat, n: nat, m: nat)
    requires n <= m && FirstRun(preds, eos, b, n).Some?
    ensures FirstRun(preds, eos, b, m) == FirstRun(preds, eos, b, n)
  {
    var k := FirstRun(preds, eos, b, n).value;
    assert EosRun(preds, eos, k, b);
  }

  /**
   * Over one step the recorded length of a sample either stays the same or changes,
   * once, from the maximum to t+1, at a step t that closes a run of NumEos end symbols.
   */
  lemma LengthChangesOnce(preds: seq<seq<int>>, eos: int, maxLen: nat, b: nat, t: nat)
    requires t < maxLen
    ensures var before, after := DecodedLen(preds, eos, maxLen, b, t), DecodedLen(preds, eos, maxLen, b, t + 1);
            before == after
            || (before == maxLen && after == t + 1 && FirstRun(preds, eos, b, t).None? && EosRun(preds, eos, t, b))
  {
  }

  /**
   * A length other than the maximum is one past a step that closed a run:
   * the NumEos arg-max labels ending there are all the end symbol, so it is at least NumEos.
   */
  lemma FrozenLength(preds: seq<seq<int>>, eos: int, maxLen: nat, b: nat, n: nat)
    requires DecodedLen(preds, eos, maxLen, b, n) != maxLen
    ensures var len := DecodedLen(preds, eos, maxLen, b, n);
            NumEos <= len <= n
            && forall k :: len - NumEos <= k < len ==> IsEos(preds, eos, k, b)
  {
    var k := FirstRun(preds, eos, b, n).value;
    assert EosRun(preds, eos, k, b);
  }

  /** Every final length is at most the number of emitted steps, which is at most maxLen. */
  lemma LengthsWithinSteps(preds: seq<seq<int>>, eos: int, maxLen: nat, batch: nat, b: nat)
    requires b < batch
    ensures Steps(preds, eos, maxLen, batch) <= maxLen
    ensures DecodedLen(preds, eos, maxLen, b, Steps(preds, eos, maxLen, batch)) <= Steps(preds, eos, maxLen, batch)
  {
  }

  /**
   * The loop runs exactly as long as the longest sample: the number of emitted steps
   * is the largest final recorded length in a non-empty batch.
   */
  lemma StepsIsLongest(preds: seq<seq<int>>, eos: int, maxLen: nat, batch: nat)
    requires 0 < maxLen && 0 < batch
    ensures Steps(preds, eos, maxLen, batch) == LongestLen(preds, eos, maxLen, batch)
  {
    var m := LongestLen(preds, eos, maxLen, batch);
    var w :| 0 <= w < batch && DecodedLen(preds, eos, maxLen, w, maxLen) == m;
    assert 1 <= m <= maxLen by {
      match FirstRun(preds, eos, w, maxLen)
      case Some(k) =>
      case None =>
    }
    // Everything is frozen after step m-1.
    forall b | 0 <= b < batch
      ensures DecodedLen(preds, eos, maxLen, b, m) <= m
    {
      assert DecodedLen(preds, eos, maxLen, b, maxLen) <= m;
      match FirstRun(preds, eos, b, maxLen)
      case Some(k) =>
        assert EosRun(preds, eos, k, b) && k < m;
        FirstRunStable(preds, eos, b, m, maxLen);
      case None =>
        assert m == maxLen;
    }
    assert AllFrozen(preds, eos, maxLen, batch, m - 1);
    // Nothing earlier stops the loop: sample w is still at the maximum.
    forall t | 0 <= t < m - 1
      ensures !AllFrozen(preds, eos, maxLen, batch, t)
    {
      if FirstRun(preds, eos, w, t + 1).Some? {
        FirstRunStable(preds, eos, w, t + 1, maxLen);
      }
      assert DecodedLen(preds, eos, maxLen, w, t + 1) > t + 1;
    }
    assert FirstStop(preds, eos, maxLen, batch, maxLen) == Some(m - 1);
  }

  /** Scanning forward from a step at which the loop has not yet stopped finds the first stop. */
  lemma {:induction false} StepsFromIsSteps(preds: seq<seq<int>>, eos: int, maxLen: nat, batch: nat, t: nat)
    requires t <= maxLen && FirstStop(preds, eos, maxLen, batch, t).None?
    ensures StepsFrom(preds, eos, maxLen, batch, t) == Steps(preds, eos, maxLen, batch)
    decreases maxLen - t
  {
    if t < maxLen {
      if AllFrozen(preds, eos, maxLen, batch, t) {
        var r := FirstStop(preds, eos, maxLen, batch, maxLen);
        assert r.Some?;
        assert !(r.value < t);
        assert !(t < r.value);
      } else {
        StepsFromIsSteps(preds, eos, maxLen, batch, t + 1);
      }
    }
  }

  /** An empty batch stops after the first step. */
  lemma EmptyBatchStopsAtOnce(preds: seq<seq<int>>, eos: int, maxLen: nat)
    requires 0 < maxLen
    ensures Steps(preds, eos, maxLen, 0) == 1
  {
    assert AllFrozen(preds, eos, maxLen, 0, 0);
  }

  /** Ring-buffer contents before step t: the rows of the last NumEos steps hold their indicators, unused rows are clear. */
  ghost predicate RingHolds(bi: array2<bool>, preds: seq<seq<int>>, eos: int, t: nat, batch: nat)
    reads bi
    requires bi.Length0 == NumEos && bi.Length1 == batch
    requires t <= |preds| && forall k :: 0 <= k < |preds| ==> |preds[k]| == batch
  {
    && (forall k, b :: 0 <= k < t && t <= k + NumEos && 0 <= b < batch ==> bi[k % NumEos, b] == (preds[k][b] == eos))
    && (forall r, b :: t <= r < NumEos && 0 <= b < batch ==> !bi[r, b])
  }

  /** The length array holds the recorded lengths after n steps. */
  ghost predicate LensHold(lens: array<int>, preds: seq<seq<int>>, eos: int, maxLen: nat, n: nat)
    reads lens
  {
    lens[..] == DecodedLens(preds, eos, maxLen, lens.Length, n)
  }

  /** Writes row t % NumEos of the ring buffer: whether step t emitted the end symbol, per sample. */
  method RecordEos(bi: array2<bool>, preds: seq<seq<int>>, eos: int, t: nat, batch: nat)
    requires bi.Length0 == NumEos && bi.Length1 == batch
    requires t < |preds| && forall k :: 0 <= k < |preds| ==> |preds[k]| == batch
    requires RingHolds(bi, preds, eos, t, batch)
    modifies bi
    ensures RingHolds(bi, preds, eos, t + 1, batch)
  {
    for b := 0 to batch
      invariant forall k, b' :: 0 <= k < t && t < k + NumEos && 0 <= b' < batch ==>
                  bi[k % NumEos, b'] == (preds[k][b'] == eos)
      invariant forall b' :: 0 <= b' < b ==> bi[t % NumEos, b'] == (preds[t][b'] == eos)
      invariant forall r, b' :: t < r < NumEos && 0 <= b' < batch ==> !bi[r, b']
    {
      bi[t % NumEos, b] := preds[t][b] == eos;
    }
  }

  /**
   * The bookkeeping of one decode step: record whether step t emitted the end
   * symbol, freeze the lengths of samples whose run is complete, and test
   * whether every recorded length is now at most t+1 (early termination).
   */
  method DecodeStep(lens: array<int>, bi: array2<bool>, preds: seq<seq<int>>, eos: int, maxLen: nat, t: nat, batch: nat)
    returns (done: bool)
    requires lens.Length == batch && bi.Length0 == NumEos && bi.Length1 == batch
    requires t < maxLen && t < |preds| && forall k :: 0 <= k < |preds| ==> |preds[k]| == batch
    requires RingHolds(bi, preds, eos, t, batch) && LensHold(lens, preds, eos, maxLen, t)
    modifies lens, bi
    ensures RingHolds(bi, preds, eos, t + 1, batch) && LensHold(lens, preds, eos, maxLen, t + 1)
    ensures done == AllFrozen(preds, eos, maxLen, batch, t)
  {
    RecordEos(bi, preds, eos, t, batch);
    FreezeLengths(lens, bi, preds, eos, maxLen, t, batch);
    done := forall b :: 0 <= b < batch ==> lens[b] <= t + 1;
    ghost var n := t + 1;
    assert done <==> forall b :: 0 <= b < batch ==> DecodedLen(preds, eos, maxLen, b, n) <= n;
  }

  /**
   * Freezes to t+1 the length of every sample whose ring-buffer column is all set,
   * provided its length is still greater than t.
   */
  method FreezeLengths(lens: array<int>, bi: array2<bool>, preds: seq<seq<int>>, eos: int, maxLen: nat, t: nat, batch: nat)
    requires lens.Length == batch && bi.Length0 == NumEos && bi.Length1 == batch
    requires t < maxLen && t < |preds| && forall k :: 0 <= k < |preds| ==> |preds[k]| == batch
    requires RingHolds(bi, preds, eos, t + 1, batch)
    requires LensHold(lens, preds, eos, maxLen, t)
    modifies lens
    ensures LensHold(lens, preds, eos, maxLen, t + 1)
  {
    for b := 0 to batch
      invariant forall b' :: 0 <= b' < b ==> lens[b'] == DecodedLen(preds, eos, maxLen, b', t + 1)
      invariant forall b' :: b <= b' < batch ==> lens[b'] == DecodedLen(preds, eos, maxLen, b', t)
    {
      RingColumn(bi, preds, eos, t, b);
      var run := forall r :: 0 <= r < NumEos ==> bi[r, b];
      if run && lens[b] > t {
        lens[b] := t + 1;
      }
    }
  }

  /**
   * The decode loop over the length array and the ring buffer: runs until
   * every recorded length is at most the number of steps taken, or for
   * maxLen steps, collecting the inputs consumed.
   */
  method Decode(lens: array<int>, bi: array2<bool>, preds: seq<seq<int>>, eos: int, maxLen: nat, batch: nat,
                hasTargets: bool, yTime: nat, draws: seq<real>, tfr: real)
    returns (steps: nat, inputs: seq<Feed>)
    requires lens.Length == batch && bi.Length0 == NumEos && bi.Length1 == batch
    requires 0 < maxLen && |preds| == maxLen && |draws| == maxLen
    requires forall k :: 0 <= k < |preds| ==> |preds[k]| == batch
    requires LensHold(lens, preds, eos, maxLen, 0) && RingHolds(bi, preds, eos, 0, batch)
    modifies lens, bi
    ensures 0 < steps <= maxLen && steps == StepsFrom(preds, eos, maxLen, batch, 0)
    ensures LensHold(lens, preds, eos, maxLen, steps)
    ensures inputs == Feeds(hasTargets, draws, tfr, yTime, steps - 1)
  {
    inputs := [StartSymbol];
    var t := 0;
    var done := false;
    while !done && t < maxLen
      invariant 0 <= t <= maxLen
      invariant LensHold(lens, preds, eos, maxLen, t) && RingHolds(bi, preds, eos, t, batch)
      invariant !done ==> StepsFrom(preds, eos, maxLen, batch, t) == StepsFrom(preds, eos, maxLen, batch, 0)
      invariant !done ==> inputs == Feeds(hasTargets, draws, tfr, yTime, t)
      invariant done ==> 0 < t && t == StepsFrom(preds, eos, maxLen, batch, 0)
      invariant done ==> inputs == Feeds(hasTargets, draws, tfr, yTime, t - 1)
      decreases maxLen - t, !done
    {
      done := DecodeStep(lens, bi, preds, eos, maxLen, t, batch);
      // early termination
      if !done {
        inputs := inputs + [NextInput(hasTargets, IsSampleStep(draws[t], tfr), t, yTime)];
      }
      t := t + 1;
    }
    steps := t;
    if !done {
      // the input chosen after the last step is never consumed
      assert inputs == Feeds(hasTargets, draws, tfr, yTime, maxLen - 1) + [inputs[maxLen]];
      inputs := inputs[..maxLen];
    }
  }

  // ---------------------------------------------------------------------------
  // The Speller
  // ---------------------------------------------------------------------------

  class Speller {
    const labelVecSize: nat
    const sos: nat
    const eos: nat
    const maxSeqLens: nat
    /** The teacher-forcing ratio, written by the scheduler. */
    var tfr: real

    constructor (labelVecSize: nat, sos: nat, eos: nat, maxSeqLens: nat)
      requires CheckIds(labelVecSize, Some(sos), Some(eos)).Success?
      ensures this.labelVecSize == labelVecSize && this.sos == sos && this.eos == eos
      ensures this.maxSeqLens == maxSeqLens && tfr == 1.0
    {
      this.labelVecSize := labelVecSize;
      this.sos := sos;
      this.eos := eos;
      this.maxSeqLens := maxSeqLens;
      tfr := 1.0;
    }

    /**
     * The bs x ts mask of ones with row b cleared from seqLens[b] on: for a
     * non-negative length, 1 exactly at the positions before that length.
     */
    method GetMask(bs: nat, ts: nat, seqLens: seq<int>) returns (mask: array2<real>)
      requires bs <= |seqLens|
      ensures fresh(mask) && mask.Length0 == bs && mask.Length1 == ts
      ensures forall b, j :: 0 <= b < bs && 0 <= j < ts ==>
                mask[b, j] == if j < SliceStart(seqLens[b], ts) then 1.0 else 0.0
      ensures forall b, j :: 0 <= b < bs && 0 <= j < ts && 0 <= seqLens[b] ==>
                mask[b, j] == if j < seqLens[b] then 1.0 else 0.0
    {
      mask := new real[bs, ts]((_, _) => 1.0);
      for b := 0 to bs
        invariant forall i, j :: 0 <= i < b && 0 <= j < ts ==>
                    mask[i, j] == if j < SliceStart(seqLens[i], ts) then 1.0 else 0.0
        invariant forall i, j :: b <= i < bs && 0 <= j < ts ==> mask[i, j] == 1.0
      {
        var start := SliceStart(seqLens[b], ts);
        for j := start to ts
          invariant forall i, j' :: 0 <= i < b && 0 <= j' < ts ==>
                      mask[i, j'] == if j' < SliceStart(seqLens[i], ts) then 1.0 else 0.0
          invariant forall i, j' :: b < i < bs && 0 <= j' < ts ==> mask[i, j'] == 1.0
          invariant forall j' :: 0 <= j' < ts ==> mask[b, j'] == if start <= j' < j then 0.0 else 1.0
        {
          mask[b, j] := 0.0;
        }
      }
    }

    /**
     * The decode loop for a batch of `batch` samples. preds[t][b] is the arg-max
     * label the network emits for sample b at step t; draws[t] is the uniform draw
     * of the sampling coin at step t; hasTargets says whether targets were given,
     * and yTime is their time extent. Returns the recorded lengths, the number of
     * emitted steps and the inputs the network consumed at those steps.
     */
    method Forward(batch: nat, preds: seq<seq<int>>, hasTargets: bool, yTime: nat, draws: seq<real>)
      returns (lens: seq<int>, steps: nat, inputs: seq<Feed>)
      requires 0 < maxSeqLens
      requires |preds| == maxSeqLens && |draws| == maxSeqLens
      requires forall t :: 0 <= t < |preds| ==> |preds[t]| == batch
      ensures steps == Steps(preds, eos, maxSeqLens, batch)
      ensures 0 < steps <= maxSeqLens
      ensures lens == DecodedLens(preds, eos, maxSeqLens, batch, steps)
      ensures inputs == Feeds(hasTargets, draws, tfr, yTime, steps - 1)
    {
      var lensArr := new int[batch](_ => maxSeqLens);
      var bi := new bool[NumEos, batch]((_, _) => false);
      steps, inputs := Decode(lensArr, bi, preds, eos, maxSeqLens, batch, hasTargets, yTime, draws, tfr);
      lens := lensArr[..];
      StepsFromIsSteps(preds, eos, maxSeqLens, batch, 0);
    }
  }
}
