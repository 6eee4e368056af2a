/**
  The streaming tempo estimator (`BPMCalculator`): stereo frames are gathered
  into blocks, each block's energy enters a FIFO of block energies about one
  second long, a block whose energy clears an adaptive threshold twice in a
  row counts as a beat, every five seconds of audio the beat count becomes one
  instantaneous tempo, and a slow timer averages all instantaneous tempos and
  folds the result into the band [90, 180].

  Samples and energies are exact reals; the source's float and double
  rounding is not modelled.
 */
module BPMCalculator {

  /** One audio frame: the left and right sample. */
  datatype Frame = Frame(left: real, right: real)

  /** Empirical constants of the energy-variance beat detector. */
  const CMult: real := -0.0000075
  const CAdd: real := 1.5142857

  /** Block size set by the constructor. */
  const DefaultSamplesPerBlock: int := 1024

  /** Tempo sentinel meaning "no estimate yet". */
  const NoTempo: real := -1.0

  /** Seconds of audio in one span; also the divisor in `blocksPerSecond`. */
  const SpanSeconds: real := 5.0

  datatype Calculator = Calculator(
    sampleRate: real,            // sample rate of the loaded track
    blockBuffer: seq<Frame>,     // FIFO of frames not yet turned into an energy
    samplesPerBlock: int,        // size at which the block FIFO is drained
    bpm: real,                   // displayed tempo, NoTempo until reconciled
    localPeakCounter: int,       // consecutive above-threshold blocks (debounce)
    localBeatCounter: int,       // beats in the current span
    beatCounter: int,            // beats since the last track load
    instantBpm: seq<real>,       // one tempo per completed span
    blocksPerSecond: int,        // window size derived from the sample rate
    energyBuffer: seq<real>,     // FIFO of block energies, oldest first
    windowPeriod: real,          // blocks in one span, as a real
    blockCounter: int,           // blocks drained so far
    localBlockCounter: int,      // blocks drained in the current span
    average: real,               // mean energy of the last full window
    variance: real,              // population variance of that window
    beatDetectConstant: real     // threshold factor derived from the variance
  ) {
    /** What the step needs: a known, non-negative sample rate and a positive block size. */
    predicate Valid() {
      sampleRate >= 0.0 && samplesPerBlock > 0
    }
  }

  /**
    The constructor. The source leaves `sampleRate` and `beatCounter`
    uninitialised; loading a track sets both before any audio arrives, and
    the model starts them at 0.
   */
  function New(): (c: Calculator)
    ensures c.Valid() && c.samplesPerBlock == DefaultSamplesPerBlock
    ensures c.bpm == NoTempo && c.blockBuffer == [] && c.energyBuffer == [] && c.instantBpm == []
    ensures c.localPeakCounter == 0 && c.localBeatCounter == 0 && c.blockCounter == 0 && c.localBlockCounter == 0
  {
    Calculator(0.0, [], DefaultSamplesPerBlock, NoTempo, 0, 0, 0, [], 0, [], 0.0, 0, 0, 0.0, 0.0, 0.0)
  }

  /* ---------------------------------------------------------------------- */
  /* Block energy                                                            */
  /* ---------------------------------------------------------------------- */

  function FrameEnergy(f: Frame): (e: real)
    ensures e >= 0.0
  {
    f.left * f.left + f.right * f.right
  }

  /** Sum of `l*l + r*r` over the frames of a block. */
  function BlockEnergy(block: seq<Frame>): (e: real)
    ensures e >= 0.0
    ensures e == 0.0 <==> forall i :: 0 <= i < |block| ==> FrameEnergy(block[i]) == 0.0
  {
    if |block| == 0 then 0.0
    else BlockEnergy(block[..|block| - 1]) + FrameEnergy(block[|block| - 1])
  }

  /**
    The drain loop at the top of `getBlockEnergy`: pops every frame from the
    front of the block FIFO and accumulates its energy.
   */
  method DrainBlock(block: seq<Frame>) returns (energy: real, rest: seq<Frame>)
    ensures energy == BlockEnergy(block)
    ensures rest == []
  {
    rest := block;
    energy := 0.0;
    while |rest| > 0
      invariant |rest| <= |block| && rest == block[|block| - |rest|..]
      invariant energy == BlockEnergy(block[..|block| - |rest|])
      decreases |rest|
    {
      var taken := |block| - |rest|;
      assert block[..taken + 1][..taken] == block[..taken];
      energy := energy + FrameEnergy(rest[0]);
      rest := rest[1..];
    }
    assert block[..|block|] == block;
  }

  /* ---------------------------------------------------------------------- */
  /* Window statistics                                                       */
  /* ---------------------------------------------------------------------- */

  function Sum(s: seq<real>): real {
    if |s| == 0 then 0.0 else Sum(s[..|s| - 1]) + s[|s| - 1]
  }

  /** Sum of squared deviations `(m - x)^2` over `s`. */
  function SquaredDeviation(s: seq<real>, m: real): (d: real)
    ensures d >= 0.0
  {
    if |s| == 0 then 0.0
    else SquaredDeviation(s[..|s| - 1], m) + Square(m - s[|s| - 1])
  }

  function Square(x: real): (y: real)
    ensures y >= 0.0
  {
    x * x
  }

  /** Mean of the first `k` entries of the queue; 0 when `k` is 0. */
  function Mean(q: seq<real>, k: nat): real
    requires k <= |q|
  {
    if k == 0 then 0.0 else Sum(q[..k]) / k as real
  }

  /** Population variance of the first `k` entries about `m`; 0 when `k` is 0. */
  function Variance(q: seq<real>, k: nat, m: real): (v: real)
    requires k <= |q|
    ensures v >= 0.0
  {
    if k == 0 then 0.0 else SquaredDeviation(q[..k], m) / k as real
  }

  /** The queue after `k` front-to-back moves. */
  function Rotate(q: seq<real>, k: nat): (r: seq<real>)
    requires k <= |q|
    ensures |r| == |q| && multiset(r) == multiset(q)
    ensures k == |q| ==> r == q
  {
    assert q == q[..k] + q[k..];
    q[k..] + q[..k]
  }

  /**
    `averageLocalEnergy`: sums the front entry `k` times, moving it to the
    back each time, then divides by `k` (0 when `k` is 0).
   */
  method AverageLocalEnergy(q: seq<real>, k: nat) returns (average: real, queue: seq<real>)
    requires k <= |q|
    ensures average == Mean(q, k)
    ensures queue == Rotate(q, k)
    ensures k == |q| ==> queue == q
  {
    queue := q;
    average := 0.0;
    var i := 0;
    while i < k
      invariant 0 <= i <= k
      invariant queue == q[i..] + q[..i]
      invariant average == Sum(q[..i])
    {
      var temp := queue[0];
      assert temp == q[i];
      assert q[..i + 1][..i] == q[..i];
      average := average + temp;
      queue := queue[1..] + [temp];
      assert q[..i] + [temp] == q[..i + 1];
      i := i + 1;
    }
    if k > 0 {
      average := average / k as real;
    } else {
      average := 0.0;
    }
  }

  /** `energyVariance`: the same rotation, accumulating squared deviations. */
  method EnergyVariance(q: seq<real>, k: nat, average: real) returns (variance: real, queue: seq<real>)
    requires k <= |q|
    ensures variance == Variance(q, k, average) && variance >= 0.0
    ensures queue == Rotate(q, k)
  {
    queue := q;
    variance := 0.0;
    var i := 0;
    while i < k
      invariant 0 <= i <= k
      invariant queue == q[i..] + q[..i]
      invariant variance == SquaredDeviation(q[..i], average)
    {
      var temp := queue[0];
      assert temp == q[i];
      assert q[..i + 1][..i] == q[..i];
      variance := variance + (average - temp) * (average - temp);
      queue := queue[1..] + [temp];
      assert q[..i] + [temp] == q[..i + 1];
      i := i + 1;
    }
    if k > 0 {
      variance := variance / k as real;
    } else {
      variance := 0.0;
    }
  }

  /**
    `calculateConstant`: the threshold factor for a window's variance. A
    variance can only lower it below `cAdd`, and only a silent window gets
    `cAdd` itself.
   */
  function Threshold(variance: real): (c: real)
    ensures variance >= 0.0 ==> c <= CAdd
    ensures c == CAdd <==> variance == 0.0
  {
    CMult * variance + CAdd
  }

  /** Because `CMult` is negative, a noisier window never gets a stricter threshold. */
  lemma ThresholdNonIncreasing(v1: real, v2: real)
    requires v1 <= v2
    ensures Threshold(v2) <= Threshold(v1)
    ensures Threshold(0.0) == CAdd
  {
  }

  datatype Statistics = Statistics(average: real, variance: real, threshold: real, window: seq<real>)

  /**
    Everything the full-window branch computes from the pushed queue: the
    mean pass, the variance pass over the queue as the mean pass left it,
    the pop of the front entry, and the threshold factor.
   */
  function WindowStatistics(q: seq<real>, k: nat): (s: Statistics)
    requires 1 <= |q| && k <= |q|
    ensures |s.window| == |q| - 1
    ensures s.variance >= 0.0
    ensures k == |q| ==> s.average == Mean(q, k) && s.variance == Variance(q, k, s.average) && s.window == q[1..]
  {
    var average := Mean(q, k);
    var afterMean := Rotate(q, k);
    var variance := Variance(afterMean, k, average);
    var afterVariance := Rotate(afterMean, k);
    Statistics(average, variance, Threshold(variance), afterVariance[1..])
  }

  /* ---------------------------------------------------------------------- */
  /* getBlockEnergy                                                          */
  /* ---------------------------------------------------------------------- */

  /** `(int)(windowPeriod / 5)` for a non-negative sample rate. */
  function BlocksPerSecond(sampleRate: real, samplesPerBlock: int): (n: int)
    requires sampleRate >= 0.0 && samplesPerBlock > 0
    ensures n >= 0
    ensures n as real <= sampleRate / samplesPerBlock as real < n as real + 1.0
  {
    var windowPeriod := sampleRate * SpanSeconds / samplesPerBlock as real;
    assert windowPeriod / SpanSeconds == sampleRate / samplesPerBlock as real;
    (windowPeriod / SpanSeconds).Floor
  }

  /** The first part of `getBlockEnergy`: drain, push, count. */
  function Counted(c: Calculator): (r: Calculator)
    requires c.Valid()
    ensures r.Valid()
  {
    c.(windowPeriod := c.sampleRate * SpanSeconds / c.samplesPerBlock as real,
       blocksPerSecond := BlocksPerSecond(c.sampleRate, c.samplesPerBlock),
       blockBuffer := [],
       energyBuffer := c.energyBuffer + [BlockEnergy(c.blockBuffer)],
       blockCounter := c.blockCounter + 1,
       localBlockCounter := c.localBlockCounter + 1)
  }

  /** The source's condition `energyBuffer.size() >= blocksPerSecond` after the push. */
  predicate WindowFull(c: Calculator)
    requires c.Valid()
  {
    |c.energyBuffer| + 1 >= BlocksPerSecond(c.sampleRate, c.samplesPerBlock)
  }

  /** Statistics of the window as the full-window branch sees them. */
  function StatisticsOf(c: Calculator): (s: Statistics)
    requires c.Valid() && WindowFull(c)
  {
    WindowStatistics(c.energyBuffer + [BlockEnergy(c.blockBuffer)], BlocksPerSecond(c.sampleRate, c.samplesPerBlock))
  }

  /** The newest block clears the adaptive threshold. */
  predicate IsPeak(c: Calculator)
    requires c.Valid() && WindowFull(c)
  {
    var s := StatisticsOf(c);
    BlockEnergy(c.blockBuffer) > s.threshold * s.average
  }

  /** The two-block debounce: the second consecutive peak is one beat. */
  function Debounce(c: Calculator, peak: bool): Calculator {
    if !peak then c.(localPeakCounter := 0)
    else if c.localPeakCounter + 1 == 2 then
      c.(localPeakCounter := 0, localBeatCounter := c.localBeatCounter + 1, beatCounter := c.beatCounter + 1)
    else c.(localPeakCounter := c.localPeakCounter + 1)
  }

  /** The span-closing guard: a known sample rate and more than five seconds of blocks. */
  predicate SpanDue(c: Calculator) {
    SpanDueAt(c.localBlockCounter, c.samplesPerBlock, c.sampleRate)
  }

  /** More than five seconds of audio in `blocks` blocks, at a known sample rate. */
  predicate SpanDueAt(blocks: int, samplesPerBlock: int, sampleRate: real) {
    sampleRate > 0.0 && samplesPerBlock > 0 &&
    blocks as real > sampleRate * SpanSeconds / samplesPerBlock as real
  }

  /** Seconds of audio in `blocks` blocks: `blocks * samplesPerBlock / sampleRate`. */
  function Elapsed(blocks: int, samplesPerBlock: int, sampleRate: real): (seconds: real)
    requires sampleRate > 0.0
    ensures blocks > 0 && samplesPerBlock > 0 ==> seconds > 0.0
  {
    (blocks * samplesPerBlock) as real / sampleRate
  }

  /** `calculateBPM`: beats in the span per minute of audio the span's blocks covered. */
  function CalculateBPM(beats: int, blocks: int, samplesPerBlock: int, sampleRate: real): (tempo: real)
    requires SpanDueAt(blocks, samplesPerBlock, sampleRate)
    ensures tempo * Elapsed(blocks, samplesPerBlock, sampleRate) == beats as real * 60.0
    ensures beats >= 0 ==> tempo >= 0.0
  {
    assert blocks >= 1;
    beats as real * 60.0 / Elapsed(blocks, samplesPerBlock, sampleRate)
  }

  function CloseSpan(c: Calculator): Calculator {
    if SpanDue(c) then
      c.(instantBpm := c.instantBpm + [CalculateBPM(c.localBeatCounter, c.localBlockCounter, c.samplesPerBlock, c.sampleRate)],
         localBlockCounter := 0, localBeatCounter := 0)
    else c
  }

  /**
    `getBlockEnergy`: turns the block FIFO into one energy, pushes it, and
    when the window is full computes the statistics, pops the oldest energy,
    runs the debounce and possibly closes a span.
   */
  function GetBlockEnergy(c: Calculator): (r: Calculator)
    requires c.Valid()
    ensures r.Valid() && r.sampleRate == c.sampleRate && r.samplesPerBlock == c.samplesPerBlock
    ensures r.blockBuffer == [] && r.blockCounter == c.blockCounter + 1
    ensures r.bpm == c.bpm
  {
    if WindowFull(c) then CloseSpan(Debounce(Measured(c), IsPeak(c))) else Counted(c)
  }

  /** The full-window branch up to the pop: statistics stored, oldest energy gone. */
  function Measured(c: Calculator): (r: Calculator)
    requires c.Valid() && WindowFull(c)
    ensures r.Valid() && r.localBlockCounter == c.localBlockCounter + 1 && r.instantBpm == c.instantBpm
    ensures r.sampleRate == c.sampleRate && r.samplesPerBlock == c.samplesPerBlock
    ensures r.localPeakCounter == c.localPeakCounter && r.localBeatCounter == c.localBeatCounter
    ensures r.beatCounter == c.beatCounter && r.bpm == c.bpm
  {
    var s := StatisticsOf(c);
    Counted(c).(average := s.average, variance := s.variance,
                energyBuffer := s.window, beatDetectConstant := s.threshold)
  }

  /** Hand a block to the calculator and let it drain it. */
  function SubmitBlock(c: Calculator, block: seq<Frame>): (r: Calculator)
    requires c.Valid()
    ensures r.Valid() && r.sampleRate == c.sampleRate && r.samplesPerBlock == c.samplesPerBlock
    ensures r.blockBuffer == [] && r.blockCounter == c.blockCounter + 1 && r.bpm == c.bpm
  {
    GetBlockEnergy(c.(blockBuffer := block))
  }

  /** Submit blocks in order; the last block is submitted last. */
  function SubmitBlocks(c: Calculator, blocks: seq<seq<Frame>>): (r: Calculator)
    requires c.Valid()
    ensures r.Valid() && r.sampleRate == c.sampleRate && r.samplesPerBlock == c.samplesPerBlock
    ensures r.bpm == c.bpm
  {
    if |blocks| == 0 then c
    else SubmitBlock(SubmitBlocks(c, blocks[..|blocks| - 1]), blocks[|blocks| - 1])
  }

  /* ---------------------------------------------------------------------- */
  /* Properties of one step                                                  */
  /* ---------------------------------------------------------------------- */

  /** The block FIFO is drained into exactly one new energy and both block counters advance. */
  lemma StepCounts(c: Calculator)
    requires c.Valid()
    ensures var r := GetBlockEnergy(c);
      && r.blockBuffer == []
      && r.blockCounter == c.blockCounter + 1
      && (r.localBlockCounter == c.localBlockCounter + 1 ||
          (WindowFull(c) && r.localBlockCounter == 0 && |r.instantBpm| == |c.instantBpm| + 1))
      && (!WindowFull(c) ==> r.energyBuffer == c.energyBuffer + [BlockEnergy(c.blockBuffer)])
      && (WindowFull(c) ==> |r.energyBuffer| == |c.energyBuffer|)
  {
    if WindowFull(c) {
      FullWindowStep(c);
    }
  }

  /**
    A full window of exactly `blocksPerSecond` energies: the statistics are
    the mean and population variance of the whole window (the rotations put
    every entry back in place) and the oldest energy leaves.
   */
  lemma SlidingWindow(c: Calculator)
    requires c.Valid()
    requires |c.energyBuffer| + 1 == BlocksPerSecond(c.sampleRate, c.samplesPerBlock)
    ensures var q := c.energyBuffer + [BlockEnergy(c.blockBuffer)];
      var r := GetBlockEnergy(c);
      && r.average == Mean(q, |q|)
      && r.variance == Variance(q, |q|, r.average)
      && r.beatDetectConstant == Threshold(r.variance)
      && r.energyBuffer == q[1..]
  {
  }

  /**
    With fewer than one block per second of audio the window is empty: the
    statistics degrade to 0 and any block with energy counts as a peak.
   */
  lemma ZeroWindow(c: Calculator)
    requires c.Valid() && BlocksPerSecond(c.sampleRate, c.samplesPerBlock) == 0
    ensures WindowFull(c)
    ensures StatisticsOf(c).average == 0.0 && StatisticsOf(c).variance == 0.0
    ensures IsPeak(c) <==> BlockEnergy(c.blockBuffer) != 0.0
    ensures GetBlockEnergy(c).energyBuffer == (c.energyBuffer + [BlockEnergy(c.blockBuffer)])[1..]
  {
    var q := c.energyBuffer + [BlockEnergy(c.blockBuffer)];
    assert Rotate(q, 0) == q;
  }

  /**
    The debounce: the peak counter stays in {0, 1}; a beat is counted exactly
    on the second consecutive peak of a full window; a quiet block resets the
    counter; and nothing here moves while the window is still filling.
   */
  lemma DebounceStep(c: Calculator)
    requires c.Valid() && 0 <= c.localPeakCounter <= 1
    ensures var r := GetBlockEnergy(c);
      && 0 <= r.localPeakCounter <= 1
      && (r.beatCounter == c.beatCounter + 1 <==> WindowFull(c) && IsPeak(c) && c.localPeakCounter == 1)
      && (r.beatCounter != c.beatCounter + 1 ==> r.beatCounter == c.beatCounter)
      && (WindowFull(c) && IsPeak(c) && c.localPeakCounter == 0 ==> r.localPeakCounter == 1)
      && (WindowFull(c) && !IsPeak(c) ==> r.localPeakCounter == 0)
      && (!WindowFull(c) ==>
            (r.localPeakCounter == c.localPeakCounter && r.localBeatCounter == c.localBeatCounter
             && r.instantBpm == c.instantBpm))
  {
    if WindowFull(c) {
      FullWindowStep(c);
    }
  }

  /** A beat in a span is counted in the span's tally as well, unless that same block closes the span. */
  lemma BeatCountsInSpan(c: Calculator)
    requires c.Valid() && WindowFull(c) && IsPeak(c) && c.localPeakCounter == 1
    ensures var r := GetBlockEnergy(c);
      r.localBeatCounter == c.localBeatCounter + 1 || (r.localBeatCounter == 0 && |r.instantBpm| == |c.instantBpm| + 1)
  {
  }

  /**
    Span closing: one tempo is appended exactly when the window is full, the
    sample rate is known and the span has passed five seconds of blocks; it
    is the span's beats per minute of audio, and both span counters restart.
   */
  lemma SpanClosing(c: Calculator)
    requires c.Valid()
    ensures var r := GetBlockEnergy(c);
      var due := WindowFull(c) && SpanDueAt(c.localBlockCounter + 1, c.samplesPerBlock, c.sampleRate);
      && (due ==> && |r.instantBpm| == |c.instantBpm| + 1
                  && r.instantBpm[..|c.instantBpm|] == c.instantBpm
                  && r.localBlockCounter == 0 && r.localBeatCounter == 0)
      && (!due ==> r.instantBpm == c.instantBpm)
  {
    if WindowFull(c) {
      FullWindowStep(c);
    }
  }

  /** The full-window step up to the span check: the span counters as the debounce leaves them. */
  lemma FullWindowStep(c: Calculator)
    requires c.Valid() && WindowFull(c)
    ensures var d := Debounce(Measured(c), IsPeak(c));
      && GetBlockEnergy(c) == CloseSpan(d)
      && d.localBlockCounter == c.localBlockCounter + 1
      && d.sampleRate == c.sampleRate && d.samplesPerBlock == c.samplesPerBlock
      && d.instantBpm == c.instantBpm
      && d.localBeatCounter == (if IsPeak(c) && c.localPeakCounter == 1 then c.localBeatCounter + 1 else c.localBeatCounter)
  {
  }

  /**
    The tempo appended when a span closes (the counted span is past five
    seconds of blocks at a known sample rate): beats times 60 over the
    seconds of audio the span covered.
   */
  lemma SpanTempo(c: Calculator)
    requires c.Valid() && WindowFull(c) && SpanDueAt(c.localBlockCounter + 1, c.samplesPerBlock, c.sampleRate)
    ensures var beats := if IsPeak(c) && c.localPeakCounter == 1 then c.localBeatCounter + 1 else c.localBeatCounter;
      GetBlockEnergy(c).instantBpm
        == c.instantBpm + [CalculateBPM(beats, c.localBlockCounter + 1, c.samplesPerBlock, c.sampleRate)]
  {
    FullWindowStep(c);
  }

  /** The cumulative beat count never decreases and grows by at most one per block. */
  lemma BeatCounterMonotone(c: Calculator)
    requires c.Valid()
    ensures c.beatCounter <= GetBlockEnergy(c).beatCounter <= c.beatCounter + 1
  {
  }

  /** The tempo log only grows, by appending, between track loads. */
  lemma LogAppendOnly(c: Calculator, blocks: seq<seq<Frame>>)
    requires c.Valid()
    ensures var r := SubmitBlocks(c, blocks);
      |c.instantBpm| <= |r.instantBpm| <= |c.instantBpm| + |blocks| && r.instantBpm[..|c.instantBpm|] == c.instantBpm
  {
    if |blocks| > 0 {
      var mid := SubmitBlocks(c, blocks[..|blocks| - 1]);
      LogAppendOnly(c, blocks[..|blocks| - 1]);
      SpanClosing(mid.(blockBuffer := blocks[|blocks| - 1]));
      assert mid.instantBpm[..|c.instantBpm|] == c.instantBpm;
    }
  }

  /**
    The window size, with the sample rate fixed and at least one block per
    second: from fewer than `blocksPerSecond` energies, after `n` blocks the
    queue holds `min(start + n, blocksPerSecond - 1)` energies, so it never
    exceeds `blocksPerSecond` and, once filled, rests at one below it.
   */
  lemma {:induction false} WindowSize(c: Calculator, blocks: seq<seq<Frame>>)
    requires c.Valid()
    requires BlocksPerSecond(c.sampleRate, c.samplesPerBlock) >= 1
    requires |c.energyBuffer| < BlocksPerSecond(c.sampleRate, c.samplesPerBlock)
    ensures var bps := BlocksPerSecond(c.sampleRate, c.samplesPerBlock);
      var n := |c.energyBuffer| + |blocks|;
      |SubmitBlocks(c, blocks).energyBuffer| == if n < bps - 1 then n else bps - 1
  {
    if |blocks| > 0 {
      var bps := BlocksPerSecond(c.sampleRate, c.samplesPerBlock);
      WindowSize(c, blocks[..|blocks| - 1]);
      var mid := SubmitBlocks(c, blocks[..|blocks| - 1]);
      StepCounts(mid.(blockBuffer := blocks[|blocks| - 1]));
    }
  }

  /** The statistics step sees exactly `blocksPerSecond` energies whenever it runs from a window below that size. */
  lemma StatisticsSeeFullWindow(c: Calculator)
    requires c.Valid() && |c.energyBuffer| < BlocksPerSecond(c.sampleRate, c.samplesPerBlock)
    ensures WindowFull(c) <==> |c.energyBuffer| + 1 == BlocksPerSecond(c.sampleRate, c.samplesPerBlock)
  {
  }

  /* ---------------------------------------------------------------------- */
  /* The reconciler                                                          */
  /* ---------------------------------------------------------------------- */

  /** `x` doubled `n` times. */
  function Doubled(x: real, n: nat): (r: real)
    ensures x > 0.0 ==> r >= x
  {
    if n == 0 then x else 2.0 * Doubled(x, n - 1)
  }

  /** `while (_bpm > 180) _bpm /= 2;` */
  function HalveWhileAbove(x: real): (r: real)
    ensures x <= 180.0 ==> r == x
    ensures x > 180.0 ==> 90.0 < r <= 180.0
    decreases if x > 180.0 then x.Floor else 0
  {
    if x > 180.0 then HalveWhileAbove(x / 2.0) else x
  }

  /** `while (_bpm < 90) _bpm *= 2;`, entered only with a value above 1. */
  function DoubleWhileBelow(x: real): (r: real)
    requires x > 1.0
    ensures x >= 90.0 ==> r == x
    ensures x < 90.0 ==> 90.0 <= r < 180.0
    decreases if x < 90.0 then (90.0 - x).Floor + 1 else 0
  {
    if x < 90.0 then DoubleWhileBelow(x * 2.0) else x
  }

  /** Octave correction: values in (1, 1000) are folded into [90, 180]; others pass through. */
  function FoldOctave(x: real): (r: real)
    ensures 1.0 < x < 1000.0 ==> 90.0 <= r <= 180.0
    ensures !(1.0 < x < 1000.0) ==> r == x
  {
    if x < 1000.0 && x > 1.0 then DoubleWhileBelow(HalveWhileAbove(x)) else x
  }

  lemma {:induction false} HalveIsOctave(x: real) returns (n: nat)
    ensures Doubled(HalveWhileAbove(x), n) == x
    decreases if x > 180.0 then x.Floor else 0
  {
    if x > 180.0 {
      var m := HalveIsOctave(x / 2.0);
      DoubledInside(HalveWhileAbove(x), m);
      n := m + 1;
    } else {
      n := 0;
    }
  }

  lemma {:induction false} DoubleIsOctave(x: real) returns (n: nat)
    requires x > 1.0
    ensures DoubleWhileBelow(x) == Doubled(x, n)
    decreases if x < 90.0 then (90.0 - x).Floor + 1 else 0
  {
    if x < 90.0 {
      var m := DoubleIsOctave(x * 2.0);
      DoubledInside(x, m);
      n := m + 1;
    } else {
      n := 0;
    }
  }

  /** Doubling once more can be done first. */
  lemma {:induction false} DoubledInside(x: real, n: nat)
    ensures Doubled(x, n + 1) == Doubled(2.0 * x, n)
  {
    if n > 0 {
      DoubledInside(x, n - 1);
    }
  }

  /** Doubling `a` times then `b` times is doubling `a + b` times. */
  lemma {:induction false} DoubledTwice(x: real, a: nat, b: nat)
    ensures Doubled(Doubled(x, a), b) == Doubled(x, a + b)
  {
    if b > 0 {
      DoubledTwice(x, a, b - 1);
    }
  }

  /** Folding only ever scales by powers of two, so the estimate stays in its octave class. */
  lemma FoldIsOctave(x: real) returns (h: nat, d: nat)
    ensures Doubled(FoldOctave(x), h) == Doubled(x, d)
  {
    if x < 1000.0 && x > 1.0 {
      var y := HalveWhileAbove(x);
      h := HalveIsOctave(x);
      d := DoubleIsOctave(y);
      DoubledTwice(y, d, h);
      DoubledTwice(y, h, d);
    } else {
      h, d := 0, 0;
    }
  }

  /** Values already in the band are left alone, so folding is idempotent. */
  lemma FoldIdempotent(x: real)
    ensures 90.0 <= x <= 180.0 ==> FoldOctave(x) == x
    ensures FoldOctave(FoldOctave(x)) == FoldOctave(x)
  {
  }

  /** The boundary cases the folding is known for; 360 stops at 180, not 90. */
  lemma FoldExamples()
    ensures FoldOctave(45.0) == 90.0
    ensures FoldOctave(200.0) == 100.0
    ensures FoldOctave(360.0) == 180.0
    ensures FoldOctave(180.0) == 180.0
    ensures FoldOctave(90.0) == 90.0
    ensures FoldOctave(NoTempo) == NoTempo
  {
    assert HalveWhileAbove(360.0) == HalveWhileAbove(180.0);
    assert DoubleWhileBelow(45.0) == DoubleWhileBelow(90.0);
    assert HalveWhileAbove(200.0) == HalveWhileAbove(100.0);
  }

  /** The reconciler's timer tick: average the whole tempo log, then fold. */
  function TimerCallback(c: Calculator): (r: Calculator)
    ensures r.instantBpm == c.instantBpm
    ensures |c.instantBpm| > 0 ==> r.bpm == FoldOctave(Sum(c.instantBpm) / |c.instantBpm| as real)
    ensures |c.instantBpm| == 0 ==> r.bpm == FoldOctave(c.bpm)
    ensures r == c.(bpm := r.bpm)
  {
    var raw := if |c.instantBpm| > 0 then Sum(c.instantBpm) / |c.instantBpm| as real else c.bpm;
    c.(bpm := FoldOctave(raw))
  }

  /** A mean tempo in (1, 1000) is displayed in [90, 180]; the sentinel survives an empty log. */
  lemma ReconcilerRange(c: Calculator)
    ensures |c.instantBpm| > 0 ==>
      var m := Sum(c.instantBpm) / |c.instantBpm| as real;
      1.0 < m < 1000.0 ==> 90.0 <= TimerCallback(c).bpm <= 180.0
    ensures |c.instantBpm| == 0 && c.bpm == NoTempo ==> TimerCallback(c).bpm == NoTempo
  {
  }

  /** A second tick without new spans changes nothing. */
  lemma ReconcilerIdempotent(c: Calculator)
    ensures TimerCallback(TimerCallback(c)) == TimerCallback(c)
  {
    var raw := if |c.instantBpm| > 0 then Sum(c.instantBpm) / |c.instantBpm| as real else c.bpm;
    FoldIdempotent(raw);
  }
}
