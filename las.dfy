/**
 * The top-level Listen-Attend-Spell model: its label layout (blank, start
 * and end symbols appended to the base labels), the training-time batch
 * filter and target construction, the reconciliation of the decoder's
 * time axis with the targets', and the evaluation-time length adjustment.
 *
 * The neural network itself is abstracted exactly as in the Decoder
 * module: the decoder is driven by the arg-max label trace preds[t][b]
 * and the uniform draws behind its sampling coin.
 */
module Las {
  import opened Wrappers
  import Decoder
  import Shapes

  // ---------------------------------------------------------------------------
  // Label layout
  // ---------------------------------------------------------------------------

  datatype Vocab = Vocab(size: nat, blank: nat, sos: nat, eos: nat)

  /** The label layout built from the number of base labels. */
  function LasVocab(labels: nat): (v: Vocab)
    ensures v.size == labels + 2
    ensures v.blank == 0 && v.sos == v.size - 2 && v.eos == v.size - 1
    ensures Decoder.CheckIds(v.size, Some(v.sos), Some(v.eos)) == Success((v.sos, v.eos))
    ensures v.blank != v.eos && (0 < labels <==> v.blank != v.sos)
  {
    Vocab(labels + 2, 0, labels, labels + 1)
  }

  // ---------------------------------------------------------------------------
  // Sequences of counts
  // ---------------------------------------------------------------------------

  function Sum(s: seq<nat>): nat
  {
    if s == [] then 0 else Sum(s[..|s| - 1]) + s[|s| - 1]
  }

  /** Sum of a longer prefix: one more element. */
  lemma SumPrefix(s: seq<nat>, i: nat)
    requires i < |s|
    ensures Sum(s[..i + 1]) == Sum(s[..i]) + s[i]
  {
    assert s[..i + 1][..i] == s[..i];
  }

  /** A prefix sums to no more than the whole. */
  lemma {:induction false} SumPrefixBound(s: seq<nat>, i: nat)
    requires i <= |s|
    ensures Sum(s[..i]) <= Sum(s)
    decreases |s| - i
  {
    if i == |s| {
      assert s[..i] == s;
    } else {
      SumPrefix(s, i);
      SumPrefixBound(s, i + 1);
    }
  }

  function MaxOf(s: seq<nat>): (m: nat)
    requires 0 < |s|
    ensures forall i :: 0 <= i < |s| ==> s[i] <= m
    ensures exists i :: 0 <= i < |s| && s[i] == m
  {
    if |s| == 1 then s[0]
    else
      var rest := MaxOf(s[..|s| - 1]);
      assert forall i :: 0 <= i < |s| - 1 ==> s[..|s| - 1][i] == s[i];
      if rest < s[|s| - 1] then s[|s| - 1] else rest
  }

  function Repeat<T>(x: T, n: nat): (r: seq<T>)
    ensures |r| == n && forall i :: 0 <= i < n ==> r[i] == x
  {
    seq(n, _ => x)
  }

  // ---------------------------------------------------------------------------
  // Training: batch filter
  // ---------------------------------------------------------------------------

  /** A sample is decoded only when it has more frames than labels and fewer labels than the decoder's maximum. */
  predicate Keep(xLen: int, yLen: int, maxLen: int)
  {
    xLen > yLen && yLen < maxLen
  }

  /** The batch positions that survive the filter, in their original order. */
  function KeptIndices(xLens: seq<int>, yLens: seq<nat>, maxLen: int): (ks: seq<nat>)
    requires |xLens| == |yLens|
    ensures forall j :: 0 <= j < |ks| ==> ks[j] < |yLens| && Keep(xLens[ks[j]], yLens[ks[j]], maxLen)
    ensures forall i :: 0 <= i < |yLens| && Keep(xLens[i], yLens[i], maxLen) ==> i in ks
    ensures forall j, j' :: 0 <= j < j' < |ks| ==> ks[j] < ks[j']
    decreases |yLens|
  {
    if yLens == [] then []
    else
      var n := |yLens| - 1;
      var rest := KeptIndices(xLens[..n], yLens[..n], maxLen);
      if Keep(xLens[n], yLens[n], maxLen) then rest + [n] else rest
  }

  /** A two-sample batch in which the second sample has fewer frames than labels: only the first is kept. */
  lemma ShortInputDropped()
    ensures KeptIndices([50, 30], [5, 40], 256) == [0]
  {
    assert KeptIndices([50], [5], 256) == [0];
  }

  // ---------------------------------------------------------------------------
  // Training: targets
  // ---------------------------------------------------------------------------

  /** The concatenated label stream cut into consecutive pieces of the given lengths. */
  function Segments(y: seq<int>, lens: seq<nat>): (segs: seq<seq<int>>)
    requires Sum(lens) == |y|
    ensures |segs| == |lens|
    ensures forall i :: 0 <= i < |lens| ==> |segs[i]| == lens[i]
    decreases |lens|
  {
    if lens == [] then []
    else
      var n := |lens| - 1;
      var k := |y| - lens[n];
      Segments(y[..k], lens[..n]) + [y[k..]]
  }

  /** Piece i is the slice of the stream that starts after the lengths before it. */
  lemma {:induction false} SegmentAt(y: seq<int>, lens: seq<nat>, i: nat)
    requires Sum(lens) == |y| && i < |lens|
    ensures Sum(lens[..i]) + lens[i] <= |y|
    ensures Segments(y, lens)[i] == y[Sum(lens[..i])..Sum(lens[..i]) + lens[i]]
    decreases |lens|
  {
    SumPrefix(lens, i);
    SumPrefixBound(lens, i + 1);
    var n := |lens| - 1;
    var k := |y| - lens[n];
    SumPrefix(lens, n);
    assert lens[..n + 1] == lens;
    if i != n {
      assert lens[..n][..i] == lens[..i];
      SumPrefix(lens[..n], i);
      SumPrefixBound(lens[..n], i + 1);
      SegmentAt(y[..k], lens[..n], i);
      assert Segments(y, lens)[i] == Segments(y[..k], lens[..n])[i];
      assert y[..k][Sum(lens[..i])..Sum(lens[..i]) + lens[i]] == y[Sum(lens[..i])..Sum(lens[..i]) + lens[i]];
    }
  }

  /** Joining the pieces back gives the stream. */
  lemma {:induction false} SegmentsConcat(y: seq<int>, lens: seq<nat>)
    requires Sum(lens) == |y|
    ensures Shapes.Flatten(Segments(y, lens)) == y
    decreases |lens|
  {
    if lens != [] {
      var n := |lens| - 1;
      var k := |y| - lens[n];
      var segs := Segments(y, lens);
      assert segs[..n] == Segments(y[..k], lens[..n]);
      SegmentsConcat(y[..k], lens[..n]);
      assert y[..k] + y[k..] == y;
    }
  }

  /** One target row: the labels, NumEos end symbols, then blanks up to the common width. */
  function TargetRow(seg: seq<int>, width: nat, eos: int, blank: int): seq<int>
    requires |seg| + Decoder.NumEos <= width
  {
    seg + Repeat(eos, Decoder.NumEos) + Repeat(blank, width - |seg| - Decoder.NumEos)
  }

  /** The filtered encoder lengths, padded target rows, target lengths and their common width. */
  datatype Targets = Targets(xLens: seq<int>, ys: seq<seq<int>>, ysLens: seq<nat>, width: nat)

  /** The entries of xs at the positions ks, in that order (boolean-mask indexing). */
  function Gather<T>(xs: seq<T>, ks: seq<nat>): (r: seq<T>)
    requires forall j :: 0 <= j < |ks| ==> ks[j] < |xs|
    ensures |r| == |ks| && forall j :: 0 <= j < |ks| ==> r[j] == xs[ks[j]]
  {
    seq(|ks|, j requires 0 <= j < |ks| => xs[ks[j]])
  }

  /** Every piece as a target row of the common width. */
  function TargetRows(segs: seq<seq<int>>, width: nat, eos: int, blank: int): (rows: seq<seq<int>>)
    requires forall i :: 0 <= i < |segs| ==> |segs[i]| + Decoder.NumEos <= width
    ensures |rows| == |segs|
    ensures forall i :: 0 <= i < |segs| ==> rows[i] == TargetRow(segs[i], width, eos, blank)
  {
    seq(|segs|, i requires 0 <= i < |segs| => TargetRow(segs[i], width, eos, blank))
  }

  /** Every length plus the NumEos end symbols. */
  function WithEos(lens: seq<nat>): (r: seq<nat>)
    ensures |r| == |lens| && forall i :: 0 <= i < |lens| ==> r[i] == lens[i] + Decoder.NumEos
  {
    seq(|lens|, i requires 0 <= i < |lens| => lens[i] + Decoder.NumEos)
  }

  /**
   * The training batch after filtering. The common width is taken over
   * every sample of the batch, kept or not, because padding happens before
   * the filter.
   */
  function PrepareTargets(v: Vocab, maxLen: int, xLens: seq<int>, y: seq<int>, yLens: seq<nat>): (tg: Targets)
    requires |xLens| == |yLens| && 0 < |yLens| && Sum(yLens) == |y|
    ensures tg.width == MaxOf(yLens) + Decoder.NumEos
    ensures var ks := KeptIndices(xLens, yLens, maxLen);
            |tg.xLens| == |ks| && |tg.ys| == |ks| && |tg.ysLens| == |ks|
    ensures forall j :: 0 <= j < |tg.ys| ==> |tg.ys[j]| == tg.width
  {
    var segs := Segments(y, yLens);
    var width := MaxOf(yLens) + Decoder.NumEos;
    var rows := TargetRows(segs, width, v.eos, v.blank);
    var ks := KeptIndices(xLens, yLens, maxLen);
    Targets(Gather(xLens, ks), Gather(rows, ks), Gather(WithEos(yLens), ks), width)
  }

  /**
   * Row j of the targets belongs to the j-th kept sample k: it holds sample
   * k's own labels, then NumEos end symbols, then blanks; its length counts
   * the end symbols, and its encoder length is sample k's.
   */
  lemma TargetRowContents(v: Vocab, maxLen: int, xLens: seq<int>, y: seq<int>, yLens: seq<nat>, j: nat)
    requires |xLens| == |yLens| && 0 < |yLens| && Sum(yLens) == |y|
    requires j < |KeptIndices(xLens, yLens, maxLen)|
    ensures var tg := PrepareTargets(v, maxLen, xLens, y, yLens);
            var k := KeptIndices(xLens, yLens, maxLen)[j];
            var off := Sum(yLens[..k]);
            off + yLens[k] <= |y|
            && tg.xLens[j] == xLens[k] && xLens[k] > yLens[k] && yLens[k] < maxLen
            && tg.ysLens[j] == yLens[k] + Decoder.NumEos
            && tg.ys[j][..yLens[k]] == y[off..off + yLens[k]]
            && (forall p :: yLens[k] <= p < tg.ysLens[j] ==> tg.ys[j][p] == v.eos)
            && (forall p :: tg.ysLens[j] <= p < tg.width ==> tg.ys[j][p] == v.blank)
  {
    var k := KeptIndices(xLens, yLens, maxLen)[j];
    SegmentAt(y, yLens, k);
  }

  /** Stripping the end symbols and padding from a target row gives back the sample's labels. */
  lemma TargetRowRoundTrip(v: Vocab, maxLen: int, xLens: seq<int>, y: seq<int>, yLens: seq<nat>, j: nat)
    requires |xLens| == |yLens| && 0 < |yLens| && Sum(yLens) == |y|
    requires j < |KeptIndices(xLens, yLens, maxLen)|
    ensures var tg := PrepareTargets(v, maxLen, xLens, y, yLens);
            var k := KeptIndices(xLens, yLens, maxLen)[j];
            Decoder.NumEos <= tg.ysLens[j] <= tg.width
            && tg.ys[j][..tg.ysLens[j] - Decoder.NumEos] == Segments(y, yLens)[k]
  {
    var k := KeptIndices(xLens, yLens, maxLen)[j];
    TargetRowContents(v, maxLen, xLens, y, yLens, j);
    SegmentAt(y, yLens, k);
  }

  // ---------------------------------------------------------------------------
  // Training: matching the time axes of predictions and targets
  // ---------------------------------------------------------------------------

  function Max(a: nat, b: nat): nat
  {
    if a < b then b else a
  }

  /** Every row extended with pad up to length n. */
  function PadAll<T>(rows: seq<seq<T>>, n: nat, pad: T): (r: seq<seq<T>>)
    requires forall i :: 0 <= i < |rows| ==> |rows[i]| <= n
    ensures |r| == |rows|
    ensures forall i :: 0 <= i < |rows| ==> |r[i]| == n && r[i][..|rows[i]|] == rows[i]
    ensures forall i, p :: 0 <= i < |rows| && |rows[i]| <= p < n ==> r[i][p] == pad
  {
    seq(|rows|, i requires 0 <= i < |rows| => rows[i] + Repeat(pad, n - |rows[i]|))
  }

  /**
   * Bring predictions (time extent s1) and targets (time extent s2) to the
   * same time extent: the shorter side is padded, predictions with hatPad
   * and targets with blank; the longer side is left alone.
   */
  function Reconcile<T>(yHats: seq<seq<T>>, s1: nat, ys: seq<seq<int>>, s2: nat, hatPad: T, blank: int)
    : (r: (seq<seq<T>>, seq<seq<int>>))
    requires forall i :: 0 <= i < |yHats| ==> |yHats[i]| == s1
    requires forall i :: 0 <= i < |ys| ==> |ys[i]| == s2
    ensures |r.0| == |yHats| && |r.1| == |ys|
    ensures forall i :: 0 <= i < |yHats| ==> |r.0[i]| == Max(s1, s2) && r.0[i][..s1] == yHats[i]
    ensures forall i :: 0 <= i < |ys| ==> |r.1[i]| == Max(s1, s2) && r.1[i][..s2] == ys[i]
    ensures forall i, p :: 0 <= i < |yHats| && s1 <= p < Max(s1, s2) ==> r.0[i][p] == hatPad
    ensures forall i, p :: 0 <= i < |ys| && s2 <= p < Max(s1, s2) ==> r.1[i][p] == blank
  {
    if s1 < s2 then (PadAll(yHats, s2, hatPad), ys)
    else if s1 > s2 then (yHats, PadAll(ys, s1, blank))
    else (yHats, ys)
  }

  /** The one-hot distribution on label c over size labels. */
  function OneHot(c: nat, size: nat): (d: seq<real>)
    ensures |d| == size
    ensures forall i :: 0 <= i < size ==> d[i] == (if i == c then 1.0 else 0.0)
  {
    seq(size, i => if i == c then 1.0 else 0.0)
  }

  /** The class of the first largest entry of a distribution. */
  function ArgMax(d: seq<real>): (k: nat)
    requires 0 < |d|
    ensures k < |d|
    ensures forall i :: 0 <= i < |d| ==> d[i] <= d[k]
    ensures forall i :: 0 <= i < k ==> d[i] < d[k]
  {
    if |d| == 1 then 0
    else
      var k := ArgMax(d[..|d| - 1]);
      assert forall i :: 0 <= i < |d| - 1 ==> d[..|d| - 1][i] == d[i];
      if d[k] < d[|d| - 1] then |d| - 1 else k
  }

  /** The padding distribution of predictions reads as blank. */
  lemma BlankPadIsBlank(v: Vocab)
    requires v.blank < v.size
    ensures ArgMax(OneHot(v.blank, v.size)) == v.blank
  {
    var d := OneHot(v.blank, v.size);
    var k := ArgMax(d);
    assert d[v.blank] == 1.0;
  }

  // ---------------------------------------------------------------------------
  // Evaluation
  // ---------------------------------------------------------------------------

  /**
   * The length adjustment as written: the subtraction is applied to the
   * copy produced by boolean-mask indexing, so the returned lengths are the
   * decoder's lengths unchanged.
   */
  function EvalLengthsAsWritten(lens: seq<int>, maxLen: int): seq<int>
  {
    lens
  }

  /** The intended adjustment: lengths of samples that stopped lose their NumEos end symbols. */
  function EvalLengths(lens: seq<int>, maxLen: int): (r: seq<int>)
    ensures |r| == |lens|
  {
    seq(|lens|, b requires 0 <= b < |lens| => if lens[b] != maxLen then lens[b] - Decoder.NumEos else lens[b])
  }

  /** One sample that stopped after 5 steps: as written its length still counts the three end symbols. */
  lemma EvalLengthsAsWrittenKeepsEos()
    ensures EvalLengthsAsWritten([5], 256) == [5]
    ensures EvalLengths([5], 256) == [5 - Decoder.NumEos]
    ensures EvalLengthsAsWritten([5], 256) != EvalLengths([5], 256)
  {
    assert EvalLengths([5], 256)[0] == 2;
  }

  /** Whenever some decoded sample stopped, the written adjustment disagrees with the intended one. */
  lemma EvalLengthsAsWrittenDiffers(lens: seq<int>, maxLen: int, b: nat)
    requires b < |lens| && lens[b] != maxLen
    ensures EvalLengthsAsWritten(lens, maxLen) != EvalLengths(lens, maxLen)
  {
    assert EvalLengths(lens, maxLen)[b] != lens[b];
  }

  /**
   * Applied to the decoder's lengths, the intended adjustment gives each
   * stopped sample the number of labels before its end-symbol run: the
   * result is not negative and the NumEos steps from there on all emitted
   * the end symbol; a sample that never stopped keeps the maximum.
   */
  lemma EvalLengthsCountLabels(preds: seq<seq<int>>, eos: int, maxLen: nat, lens: seq<int>, n: nat, b: nat)
    requires b < |lens| && lens[b] == Decoder.DecodedLen(preds, eos, maxLen, b, n)
    ensures var r := EvalLengths(lens, maxLen)[b];
            0 <= r
            && (lens[b] != maxLen ==>
                  r + Decoder.NumEos <= n
                  && forall k :: r <= k < r + Decoder.NumEos ==> Decoder.IsEos(preds, eos, k, b))
            && (lens[b] == maxLen ==> r == maxLen)
  {
    if lens[b] != maxLen {
      Decoder.FrozenLength(preds, eos, maxLen, b, n);
    }
  }

  /** The last two columns (start and end symbols) dropped from a distribution, as the slice [:-2] does. */
  function DropAux<T>(d: seq<T>): (r: seq<T>)
    ensures |r| == if |d| < 2 then 0 else |d| - 2
    ensures forall i :: 0 <= i < |r| ==> r[i] == d[i]
  {
    if |d| < 2 then [] else d[..|d| - 2]
  }

  /** For the model's layout, dropping the last two columns keeps exactly the base labels, blank included. */
  lemma DropAuxKeepsBaseLabels<T>(labels: nat, d: seq<T>)
    requires |d| == LasVocab(labels).size
    ensures var v := LasVocab(labels);
            |DropAux(d)| == labels
            && (forall i :: 0 <= i < labels ==> DropAux(d)[i] == d[i] && i != v.sos && i != v.eos)
            && (0 < labels ==> v.blank < |DropAux(d)|)
  {
  }

  /** The arg-max trace of the first steps, one row per sample. */
  function Transpose(preds: seq<seq<int>>, steps: nat, batch: nat): (rows: seq<seq<int>>)
    requires steps <= |preds| && forall t :: 0 <= t < |preds| ==> |preds[t]| == batch
    ensures |rows| == batch
    ensures forall b :: 0 <= b < batch ==> |rows[b]| == steps
    ensures forall b, t :: 0 <= b < batch && 0 <= t < steps ==> rows[b][t] == preds[t][b]
  {
    seq(batch, b requires 0 <= b < batch => seq(steps, t requires 0 <= t < steps => preds[t][b]))
  }

  /**
   * The training forward pass over the non-neural parts: filter the batch,
   * build the targets, decode the kept samples with teacher forcing from
   * those targets, and bring predicted labels and targets to one time extent.
   */
  method TrainForward(spell: Decoder.Speller, v: Vocab, xLens: seq<int>, y: seq<int>, yLens: seq<nat>,
                      preds: seq<seq<int>>, draws: seq<real>)
    returns (tg: Targets, lens: seq<int>, steps: nat, inputs: seq<Decoder.Feed>,
             hats: seq<seq<int>>, targets: seq<seq<int>>)
    requires spell.eos == v.eos
    requires |xLens| == |yLens| && 0 < |yLens| && Sum(yLens) == |y|
    requires 0 < spell.maxSeqLens && |preds| == spell.maxSeqLens && |draws| == spell.maxSeqLens
    requires forall t :: 0 <= t < |preds| ==> |preds[t]| == |KeptIndices(xLens, yLens, spell.maxSeqLens)|
    ensures tg == PrepareTargets(v, spell.maxSeqLens, xLens, y, yLens)
    ensures steps == Decoder.Steps(preds, v.eos, spell.maxSeqLens, |tg.ys|)
    ensures |lens| == |tg.ys|
    ensures forall b :: 0 <= b < |lens| ==> lens[b] == Decoder.DecodedLen(preds, v.eos, spell.maxSeqLens, b, steps)
    ensures |inputs| == steps && inputs[0] == Decoder.StartSymbol
    ensures forall t :: 0 <= t < steps - 1 ==>
              inputs[t + 1] == Decoder.NextInput(true, Decoder.IsSampleStep(draws[t], spell.tfr), t, tg.width)
    ensures |hats| == |tg.ys| && |targets| == |tg.ys|
    ensures forall b :: 0 <= b < |hats| ==>
              |hats[b]| == Max(steps, tg.width) && |targets[b]| == Max(steps, tg.width)
              && hats[b][..steps] == Transpose(preds, steps, |tg.ys|)[b]
              && targets[b][..tg.width] == tg.ys[b]
    ensures forall b, p :: 0 <= b < |hats| && steps <= p < Max(steps, tg.width) ==> hats[b][p] == v.blank
    ensures forall b, p :: 0 <= b < |targets| && tg.width <= p < Max(steps, tg.width) ==> targets[b][p] == v.blank
  {
    tg := PrepareTargets(v, spell.maxSeqLens, xLens, y, yLens);
    lens, steps, inputs := spell.Forward(|tg.ys|, preds, true, tg.width, draws);
    var r := Reconcile(Transpose(preds, steps, |tg.ys|), steps, tg.ys, tg.width, v.blank as int, v.blank);
    hats, targets := r.0, r.1;
  }

  /**
   * The evaluation forward pass over the non-neural parts: decode without
   * targets (every step after the first feeds back the decoder's own
   * output). The lengths returned are those of the code as written, the
   * decoder's own; intended holds the lengths the adjustment was meant to
   * produce.
   */
  method EvalForward(spell: Decoder.Speller, batch: nat, preds: seq<seq<int>>)
    returns (lens: seq<int>, intended: seq<int>, steps: nat, inputs: seq<Decoder.Feed>)
    requires 0 < spell.maxSeqLens && |preds| == spell.maxSeqLens
    requires forall t :: 0 <= t < |preds| ==> |preds[t]| == batch
    ensures steps == Decoder.Steps(preds, spell.eos, spell.maxSeqLens, batch)
    ensures lens == EvalLengthsAsWritten(Decoder.DecodedLens(preds, spell.eos, spell.maxSeqLens, batch, steps), spell.maxSeqLens)
    ensures forall b :: 0 <= b < batch ==> 0 <= lens[b] <= steps
    ensures |intended| == batch
    ensures forall b :: 0 <= b < batch ==>
              intended[b] == EvalLengths(Decoder.DecodedLens(preds, spell.eos, spell.maxSeqLens, batch, steps), spell.maxSeqLens)[b]
    ensures forall b :: 0 <= b < batch ==> 0 <= intended[b] <= steps
    ensures |inputs| == steps && inputs[0] == Decoder.StartSymbol
    ensures forall t :: 0 < t < steps ==> inputs[t] == Decoder.OwnPrediction
  {
    var raw;
    var draws := seq(spell.maxSeqLens, _ => 0.0);
    raw, steps, inputs := spell.Forward(batch, preds, false, 0, draws);
    lens := EvalLengthsAsWritten(raw, spell.maxSeqLens);
    intended := EvalLengths(raw, spell.maxSeqLens);
    forall b | 0 <= b < batch
      ensures 0 <= lens[b] <= steps && 0 <= intended[b] <= steps
    {
      Decoder.LengthsWithinSteps(preds, spell.eos, spell.maxSeqLens, batch, b);
      EvalLengthsCountLabels(preds, spell.eos, spell.maxSeqLens, raw, steps, b);
    }
    forall t | 0 < t < steps
      ensures inputs[t] == Decoder.OwnPrediction
    {
      assert inputs[(t - 1) + 1] == Decoder.NextInput(false, Decoder.IsSampleStep(draws[t - 1], spell.tfr), t - 1, 0);
    }
  }
}
