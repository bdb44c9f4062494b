/**
 * The teacher-forcing ratio scheduler: an epoch counter (optionally restarting)
 * and the ratio it writes into the decoder after every step, held at the upper
 * bound during warm-up, declining linearly to the lower bound, then held there.
 * Ratios are Dafny reals, so the piecewise-linear schedule is exact.
 */
module Scheduler {
  import opened Wrappers
  import Decoder

  /** The ratio for an epoch (get_tfr) over the scheduler's fields. */
  function Ratio(upper: real, lower: real, warmUp: int, endEpochs: int, slope: real, epoch: int): real
  {
    if epoch < warmUp then upper
    else if epoch < endEpochs then upper + slope * ((epoch - warmUp) as real)
    else lower
  }

  /** The relations between the fields that the constructor establishes. */
  predicate Consistent(upper: real, lower: real, warmUp: int, endEpochs: int, slope: real)
  {
    && 0.0 <= lower <= upper < 1.0
    && endEpochs != warmUp
    && slope == (lower - upper) / ((endEpochs - warmUp) as real)
  }

  /** The next value of the counter (step): an explicit epoch wins; otherwise one more, after a restart if due. */
  function NextEpoch(restart: bool, last: int, endEpochs: int, epoch: Option<int>): int
  {
    var base := if restart && last == endEpochs then -1 else last;
    match epoch
    case Some(e) => e
    case None => base + 1
  }

  /** The counter after n argument-less steps from the initial -1. */
  function CounterAfter(restart: bool, endEpochs: int, n: nat): int
  {
    if n == 0 then -1 else NextEpoch(restart, CounterAfter(restart, endEpochs, n - 1), endEpochs, None)
  }

  /** During the decline the ratio moves from upper towards lower and stays between them. */
  lemma DeclineInRange(upper: real, lower: real, warmUp: int, endEpochs: int, slope: real, epoch: int)
    requires Consistent(upper, lower, warmUp, endEpochs, slope)
    requires warmUp <= epoch < endEpochs
    ensures lower <= upper + slope * ((epoch - warmUp) as real) <= upper
  {
    var e := (endEpochs - warmUp) as real;
    var x := (epoch - warmUp) as real;
    assert 0.0 <= x < e;
    assert slope <= 0.0;
    assert slope * e == lower - upper;
    assert slope * x <= 0.0;
    assert slope * (e - x) <= 0.0;
  }

  /** The ratio always lies in [lower, upper]. */
  lemma RatioInRange(upper: real, lower: real, warmUp: int, endEpochs: int, slope: real, epoch: int)
    requires Consistent(upper, lower, warmUp, endEpochs, slope)
    ensures lower <= Ratio(upper, lower, warmUp, endEpochs, slope, epoch) <= upper
  {
    if warmUp <= epoch < endEpochs {
      DeclineInRange(upper, lower, warmUp, endEpochs, slope, epoch);
    }
  }

  /** The ratio never increases as the counter grows. */
  lemma RatioNonIncreasing(upper: real, lower: real, warmUp: int, endEpochs: int, slope: real, e1: int, e2: int)
    requires Consistent(upper, lower, warmUp, endEpochs, slope)
    requires e1 <= e2
    ensures Ratio(upper, lower, warmUp, endEpochs, slope, e2) <= Ratio(upper, lower, warmUp, endEpochs, slope, e1)
  {
    RatioInRange(upper, lower, warmUp, endEpochs, slope, e1);
    RatioInRange(upper, lower, warmUp, endEpochs, slope, e2);
    if warmUp <= e1 && e2 < endEpochs {
      assert slope <= 0.0;
      assert slope * ((e2 - e1) as real) <= 0.0;
      assert slope * ((e2 - warmUp) as real) == slope * ((e1 - warmUp) as real) + slope * ((e2 - e1) as real);
    }
  }

  /** The three phases: upper before warm-up ends, the line in between, lower once both bounds are passed. */
  lemma RatioPhases(upper: real, lower: real, warmUp: int, endEpochs: int, slope: real, epoch: int)
    requires Consistent(upper, lower, warmUp, endEpochs, slope) && warmUp < endEpochs
    ensures epoch < warmUp ==> Ratio(upper, lower, warmUp, endEpochs, slope, epoch) == upper
    ensures Ratio(upper, lower, warmUp, endEpochs, slope, warmUp) == upper
    ensures endEpochs <= epoch ==> Ratio(upper, lower, warmUp, endEpochs, slope, epoch) == lower
    ensures warmUp <= epoch < endEpochs ==>
              Ratio(upper, lower, warmUp, endEpochs, slope, epoch)
              == upper + (lower - upper) * ((epoch - warmUp) as real) / ((endEpochs - warmUp) as real)
  {
  }

  /** With restart, argument-less steps keep the counter within [0, endEpochs], wrapping to 0 after endEpochs. */
  lemma RestartCycles(endEpochs: int, last: int)
    requires 0 <= endEpochs && -1 <= last <= endEpochs
    ensures 0 <= NextEpoch(true, last, endEpochs, None) <= endEpochs
    ensures last == endEpochs ==> NextEpoch(true, last, endEpochs, None) == 0
    ensures last < endEpochs ==> NextEpoch(true, last, endEpochs, None) == last + 1
  {
  }

  /** Without restart the counter after n steps is n - 1. */
  lemma {:induction false} CounterWithoutRestart(endEpochs: int, n: nat)
    ensures CounterAfter(false, endEpochs, n) == n - 1
  {
    if n > 0 {
      CounterWithoutRestart(endEpochs, n - 1);
    }
  }

  /** With restart the first endEpochs+1 steps count 0, 1, .., endEpochs. */
  lemma {:induction false} CounterWithRestartFirstCycle(endEpochs: nat, n: nat)
    requires 1 <= n <= endEpochs + 1
    ensures CounterAfter(true, endEpochs, n) == n - 1
  {
    if n > 1 {
      CounterWithRestartFirstCycle(endEpochs, n - 1);
    }
  }

  /** With restart the counter is periodic: endEpochs+1 further steps bring it back to the same value. */
  lemma {:induction false} CounterWithRestartPeriodic(endEpochs: nat, n: nat)
    requires 1 <= n
    ensures CounterAfter(true, endEpochs, n + endEpochs + 1) == CounterAfter(true, endEpochs, n)
  {
    if n == 1 {
      CounterWithRestartFirstCycle(endEpochs, endEpochs + 1);
    } else {
      CounterWithRestartPeriodic(endEpochs, n - 1);
    }
  }

  /** The scheduler's fields except the decoder back-reference: what state_dict exports. */
  datatype Counters = Counters(restart: bool, upper: real, lower: real, warmUp: int, endEpochs: int,
                               slope: real, lastEpoch: int)

  /** A state dictionary: each field may be present or absent. */
  datatype StateDict = StateDict(restart: Option<bool>, upper: Option<real>, lower: Option<real>,
                                 warmUp: Option<int>, endEpochs: Option<int>, slope: Option<real>,
                                 lastEpoch: Option<int>)

  /** The complete dictionary of a set of counters. */
  function Export(c: Counters): StateDict
  {
    StateDict(Some(c.restart), Some(c.upper), Some(c.lower), Some(c.warmUp), Some(c.endEpochs),
              Some(c.slope), Some(c.lastEpoch))
  }

  function Pick<T>(o: Option<T>, current: T): T
  {
    match o
    case Some(v) => v
    case None => current
  }

  /** Updating the counters with a dictionary: present keys overwrite, absent keys keep their value. */
  function Update(c: Counters, d: StateDict): Counters
  {
    Counters(Pick(d.restart, c.restart), Pick(d.upper, c.upper), Pick(d.lower, c.lower),
             Pick(d.warmUp, c.warmUp), Pick(d.endEpochs, c.endEpochs), Pick(d.slope, c.slope),
             Pick(d.lastEpoch, c.lastEpoch))
  }

  /** Loading an exported dictionary restores exactly the exported counters, whatever the state was. */
  lemma LoadExportRestores(current: Counters, saved: Counters)
    ensures Update(current, Export(saved)) == saved
  {
  }

  class TFRScheduler {
    /** The decoder whose ratio this scheduler writes; not part of the state dictionary. */
    const model: Decoder.Speller
    var restart: bool
    var upper: real
    var lower: real
    var warmUp: int
    var endEpochs: int
    var slope: real
    var lastEpoch: int

    ghost predicate Valid()
      reads this
    {
      Consistent(upper, lower, warmUp, endEpochs, slope)
    }

    function Fields(): Counters
      reads this
    {
      Counters(restart, upper, lower, warmUp, endEpochs, slope, lastEpoch)
    }

    /** ranges is the pair (upper, lower). */
    constructor (model: Decoder.Speller, upper: real, lower: real, warmUp: int, epochs: int, restart: bool)
      requires 0.0 <= lower <= upper < 1.0
      requires epochs != 0
      ensures Valid()
      ensures this.model == model && Fields() == Counters(restart, upper, lower, warmUp, epochs + warmUp,
                                                            (lower - upper) / (epochs as real), -1)
    {
      this.model := model;
      this.restart := restart;
      this.upper, this.lower := upper, lower;
      this.warmUp := warmUp;
      this.endEpochs := epochs + warmUp;
      this.slope := (lower - upper) / (epochs as real);
      this.lastEpoch := -1;
    }

    /** The ratio for the current epoch; for a scheduler the constructor built it lies in [lower, upper]. */
    function GetTfr(): (r: real)
      reads this
      ensures Valid() ==> lower <= r <= upper
    {
      var r := Ratio(upper, lower, warmUp, endEpochs, slope, lastEpoch);
      assert Valid() ==> lower <= r <= upper by {
        if Valid() {
          RatioInRange(upper, lower, warmUp, endEpochs, slope, lastEpoch);
        }
      }
      r
    }

    /** Advances the counter and writes the new ratio into the decoder; nothing else changes. */
    method Step(epoch: Option<int>)
      modifies this, model
      ensures lastEpoch == NextEpoch(old(restart), old(lastEpoch), old(endEpochs), epoch)
      ensures Fields() == old(Fields()).(lastEpoch := lastEpoch)
      ensures model.tfr == Ratio(upper, lower, warmUp, endEpochs, slope, lastEpoch)
      ensures Valid() ==> lower <= model.tfr <= upper
    {
      if restart && lastEpoch == endEpochs {
        lastEpoch := -1;
      }
      var e := match epoch case Some(v) => v case None => lastEpoch + 1;
      lastEpoch := e;
      model.tfr := GetTfr();
      if Consistent(upper, lower, warmUp, endEpochs, slope) {
        RatioInRange(upper, lower, warmUp, endEpochs, slope, lastEpoch);
      }
    }

    /** The state dictionary; loading it into any scheduler gives that scheduler these fields. */
    function ExportState(): (d: StateDict)
      reads this
      ensures forall c :: Update(c, d) == Fields()
    {
      Export(Fields())
    }

    /** Overwrites the fields named in the dictionary; the decoder reference is untouched. */
    method LoadState(d: StateDict)
      modifies this
      ensures Fields() == Update(old(Fields()), d)
    {
      restart := Pick(d.restart, restart);
      upper := Pick(d.upper, upper);
      lower := Pick(d.lower, lower);
      warmUp := Pick(d.warmUp, warmUp);
      endEpochs := Pick(d.endEpochs, endEpochs);
      slope := Pick(d.slope, slope);
      lastEpoch := Pick(d.lastEpoch, lastEpoch);
    }
  }
}
