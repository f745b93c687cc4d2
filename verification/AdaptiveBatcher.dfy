/**
 * Adaptive batch sizing (backend/src/batching.rs): a feedback controller over the
 * average of the most recent latencies. Latencies are whole nanoseconds.
 */
module AdaptiveBatcher {

  import opened Arithmetic
  import opened Sequences

  datatype Config = Config(minSize: nat, maxSize: nat, initialSize: nat, target: nat, window: nat)

  function Clamp(n: nat, low: nat, high: nat): nat {
    if n < low then low else if n > high then high else n
  }

  // ---------------------------------------------------------------------
  // The window of recent latencies
  // ---------------------------------------------------------------------

  function Average(s: seq<nat>): nat
    requires s != []
  {
    Sum(s) / |s|
  }

  class LatencyWindow {
    var samples: seq<nat>
    const capacity: nat
    ghost var pushed: seq<nat>

    ghost predicate Valid()
      reads this
    {
      capacity >= 1 && samples == LastOf(pushed, capacity)
    }

    constructor (capacity: nat)
      ensures Valid() && pushed == [] && this.capacity == if capacity == 0 then 1 else capacity
    {
      samples, this.capacity, pushed := [], Max(capacity, 1), [];
    }

    /** Whatever was pushed before, the window holds exactly the last `capacity` samples. */
    method Push(sample: nat)
      requires Valid()
      modifies this
      ensures Valid() && pushed == old(pushed) + [sample]
    {
      if |samples| == capacity {
        samples := samples[1..];
      }
      samples := samples + [sample];
      pushed := pushed + [sample];
    }
  }

  // ---------------------------------------------------------------------
  // The controller as a function of the latencies seen
  // ---------------------------------------------------------------------

  /** Shrinking in proportion to how far the average is over the target; averages count as at least a microsecond. */
  function Shrunk(current: nat, target: nat, average: nat): nat {
    current * target / Max(average, 1000)
  }

  /** The size after a batch that left the average at `average`. */
  function NextSize(config: Config, current: nat, average: nat): nat {
    var next :=
      if average > config.target then Shrunk(current, config.target, average)
      else if 10 * average < 8 * config.target then current + Max(current / 4, 1)
      else current;
    Clamp(next, config.minSize, config.maxSize)
  }

  /**
   * One step, before clamping to the bounds. Over the target the new size is the largest whose cost,
   * at the rate `average` per `current` items, stays within the target; under the slack band the size
   * grows by at least one and otherwise by the largest amount not above a quarter.
   */
  lemma StepIsProportional(config: Config, current: nat, average: nat, next: nat)
    requires next == NextSize(config, current, average) && config.minSize < next < config.maxSize
    ensures average > config.target ==>
      next * Max(average, 1000) <= current * config.target < (next + 1) * Max(average, 1000)
    ensures 10 * average < 8 * config.target ==>
      next > current && (next == current + 1 || 4 * (next - current) <= current) && current < 4 * (next - current + 1)
    ensures 8 * config.target <= 10 * average <= 10 * config.target ==> next == current
  {
    if average > config.target {
      Quotient(current * config.target, Max(average, 1000));
    }
  }

  ghost function AverageOf(config: Config, history: seq<nat>): nat
    requires history != []
  {
    Average(LastOf(history, Max(config.window, 1)))
  }

  ghost function SizeAfter(config: Config, history: seq<nat>): nat {
    if history == [] then Clamp(config.initialSize, config.minSize, Max(config.maxSize, config.minSize))
    else NextSize(config, SizeAfter(config, history[..|history| - 1]), AverageOf(config, history))
  }

  /** How often the size changed. */
  ghost function ResizesIn(config: Config, history: seq<nat>): nat {
    if history == [] then 0
    else
      var before := history[..|history| - 1];
      ResizesIn(config, before) + if SizeAfter(config, history) != SizeAfter(config, before) then 1 else 0
  }

  lemma MeanOf(w: seq<nat>)
    requires w != []
    ensures |w| * Average(w) <= Sum(w) < |w| * (Average(w) + 1)
  {
    Quotient(Sum(w), |w|);
  }

  /** The average is the rounded-down mean of exactly the last latencies, as many as the window holds. */
  lemma AverageIsMean(config: Config, history: seq<nat>, k: nat)
    requires history != []
    requires k == if config.window == 0 then 1 else if config.window < |history| then config.window else |history|
    ensures 1 <= k <= |history|
    ensures
      var w, average := history[|history| - k..], AverageOf(config, history);
      k * average <= Sum(w) < k * (average + 1)
  {
    var w := history[|history| - k..];
    assert LastOf(history, Max(config.window, 1)) == w;
    MeanOf(w);
  }

  /** In every run the size stays between the configured bounds. */
  lemma SizeInRange(config: Config, history: seq<nat>)
    requires config.minSize <= config.maxSize
    ensures config.minSize <= SizeAfter(config, history) <= config.maxSize
  {
  }

  // ---------------------------------------------------------------------
  // Progress under a constant latency
  // ---------------------------------------------------------------------

  /** Any history followed by `n` batches that each took `latency`. */
  ghost function Steady(history: seq<nat>, latency: nat, n: nat): (s: seq<nat>)
    ensures |s| == |history| + n
    ensures forall i :: |history| <= i < |s| ==> s[i] == latency
    ensures n > 0 ==> s != [] && s[..|s| - 1] == Steady(history, latency, n - 1)
  {
    if n == 0 then history else Steady(history, latency, n - 1) + [latency]
  }

  /** Once the window is full of one latency, that is the average. */
  lemma SteadyAverage(config: Config, history: seq<nat>, latency: nat, n: nat)
    requires n >= Max(config.window, 1)
    ensures AverageOf(config, Steady(history, latency, n)) == latency
  {
    var recent := LastOf(Steady(history, latency, n), Max(config.window, 1));
    AverageBetween(recent, latency, latency);
  }

  lemma SteadyStep(config: Config, history: seq<nat>, latency: nat, n: nat)
    requires n >= Max(config.window, 1)
    ensures SizeAfter(config, Steady(history, latency, n))
         == NextSize(config, SizeAfter(config, Steady(history, latency, n - 1)), latency)
  {
    hide NextSize, AverageOf;
    SteadyAverage(config, history, latency, n);
  }

  /** Proportional shrinking of a positive size is strict. */
  lemma ShrinkIsStrict(current: nat, target: nat, m: nat)
    requires current > 0 && target < m
    ensures current * target / m < current
  {
    assert current * (m - target) > 0;
    CancelFactor(current * target / m, current, m);
  }

  lemma ShrinkStep(config: Config, current: nat, latency: nat)
    requires config.minSize <= current <= config.maxSize && latency > config.target
    ensures NextSize(config, current, latency) <= Max(config.minSize, current - (if current > 0 then 1 else 0))
  {
    if current > 0 {
      ShrinkIsStrict(current, config.target, Max(latency, 1000));
    }
  }

  /** The lower edge of the size under a latency below the slack band. */
  lemma {:induction false} GrowsSteadily(config: Config, history: seq<nat>, latency: nat, n: nat)
    requires config.minSize <= config.maxSize && 10 * latency < 8 * config.target
    requires n >= Max(config.window, 1) - 1
    ensures
      var grown := config.minSize + n - (Max(config.window, 1) - 1);
      SizeAfter(config, Steady(history, latency, n)) >= if grown < config.maxSize then grown else config.maxSize
    decreases n
  {
    hide SizeAfter, Steady;
    SizeInRange(config, Steady(history, latency, n));
    if n >= Max(config.window, 1) {
      GrowsSteadily(config, history, latency, n - 1);
      SteadyStep(config, history, latency, n);
    }
  }

  /** The upper edge of the size under a latency above the target. */
  lemma {:induction false} ShrinksSteadily(config: Config, history: seq<nat>, latency: nat, n: nat)
    requires config.minSize <= config.maxSize && latency > config.target
    requires n >= Max(config.window, 1) - 1
    ensures
      var shrunk := config.maxSize - (n - (Max(config.window, 1) - 1));
      SizeAfter(config, Steady(history, latency, n)) <= if shrunk > config.minSize then shrunk else config.minSize
    decreases n
  {
    hide SizeAfter, Steady, NextSize;
    SizeInRange(config, Steady(history, latency, n));
    if n >= Max(config.window, 1) {
      ShrinksSteadily(config, history, latency, n - 1);
      SteadyStep(config, history, latency, n);
      SizeInRange(config, Steady(history, latency, n - 1));
      ShrinkStep(config, SizeAfter(config, Steady(history, latency, n - 1)), latency);
    }
  }

  /** A latency inside the slack band changes nothing once the window is full of it. */
  lemma {:induction false} FrozenInBand(config: Config, history: seq<nat>, latency: nat, n: nat)
    requires config.minSize <= config.maxSize && 8 * config.target <= 10 * latency <= 10 * config.target
    requires n >= Max(config.window, 1) - 1
    ensures SizeAfter(config, Steady(history, latency, n))
         == SizeAfter(config, Steady(history, latency, Max(config.window, 1) - 1))
    decreases n
  {
    hide SizeAfter, Steady;
    if n >= Max(config.window, 1) {
      FrozenInBand(config, history, latency, n - 1);
      SteadyStep(config, history, latency, n);
      SizeInRange(config, Steady(history, latency, n - 1));
    }
  }

  /**
   * After any history, a constant latency below 80% of the target drives the size to the
   * maximum within `window + (max - min)` batches and keeps it there; one above the target
   * drives it to the minimum; one in the slack band freezes it once the window is full.
   */
  lemma ConstantLatencyConverges(config: Config, history: seq<nat>, latency: nat, n: nat)
    requires config.minSize <= config.maxSize
    requires n >= Max(config.window, 1) + (config.maxSize - config.minSize)
    ensures
      var size := SizeAfter(config, Steady(history, latency, n));
      && (10 * latency < 8 * config.target ==> size == config.maxSize)
      && (latency > config.target ==> size == config.minSize)
      && (8 * config.target <= 10 * latency <= 10 * config.target ==>
            size == SizeAfter(config, Steady(history, latency, Max(config.window, 1) - 1)))
  {
    hide SizeAfter, Steady;
    SizeInRange(config, Steady(history, latency, n));
    if 10 * latency < 8 * config.target {
      GrowsSteadily(config, history, latency, n);
    } else if latency > config.target {
      ShrinksSteadily(config, history, latency, n);
    } else {
      FrozenInBand(config, history, latency, n);
    }
  }

  // ---------------------------------------------------------------------
  // The object
  // ---------------------------------------------------------------------

  class Batcher {
    const config: Config
    const latencies: LatencyWindow
    var currentSize: nat
    var batchesTotal: nat
    var itemsTotal: nat
    var resizesTotal: nat
    ghost var history: seq<nat>
    ghost var items: seq<nat>

    ghost predicate Valid()
      reads this, latencies
    {
      && latencies.Valid() && latencies.capacity == Max(config.window, 1) && latencies.pushed == history
      && currentSize == SizeAfter(config, history)
      && batchesTotal == |history|
      && itemsTotal == Sum(items)
      && resizesTotal == ResizesIn(config, history)
    }

    constructor (config: Config)
      ensures Valid() && history == [] && items == [] && this.config == config && fresh(latencies)
      ensures config.minSize <= config.initialSize <= config.maxSize ==> currentSize == config.initialSize
      ensures config.initialSize < config.minSize || config.maxSize < config.minSize ==> currentSize == config.minSize
      ensures config.minSize <= config.maxSize < config.initialSize ==> currentSize == config.maxSize
    {
      this.config := config;
      latencies := new LatencyWindow(config.window);
      currentSize := Clamp(config.initialSize, config.minSize, Max(config.maxSize, config.minSize));
      batchesTotal, itemsTotal, resizesTotal := 0, 0, 0;
      history, items := [], [];
    }

    /** Clamping to an empty range is a panic in the source, hence the precondition on the bounds. */
    method RecordBatch(count: nat, elapsed: nat)
      requires Valid() && config.minSize <= config.maxSize
      modifies this, latencies
      ensures Valid() && history == old(history) + [elapsed] && items == old(items) + [count]
    {
      batchesTotal := batchesTotal + 1;
      itemsTotal := itemsTotal + count;
      latencies.Push(elapsed);
      var average := if latencies.samples == [] then elapsed else Average(latencies.samples);
      history, items := history + [elapsed], items + [count];
      assert history[..|history| - 1] == old(history) && items[..|items| - 1] == old(items);
      Resize(average);
    }

    method Resize(average: nat)
      requires config.minSize <= config.maxSize
      modifies this`currentSize, this`resizesTotal
      ensures currentSize == NextSize(config, old(currentSize), average)
      ensures resizesTotal == old(resizesTotal) + if currentSize != old(currentSize) then 1 else 0
    {
      hide Shrunk;
      var next := currentSize;
      if average > config.target {
        next := Shrunk(currentSize, config.target, average);
      } else if 10 * average < 8 * config.target {
        next := currentSize + Max(currentSize / 4, 1);
      }
      var clamped := Clamp(next, config.minSize, config.maxSize);
      if clamped != currentSize {
        currentSize := clamped;
        resizesTotal := resizesTotal + 1;
      }
    }
  }
}
