/**
  The per-deck player (`DJAudioPlayer`) around the tempo estimator: the
  audio callback that records peak levels and feeds frames into the
  estimator's block FIFO, the range-checked setters, the relative position
  queries, the max-and-reset level read, and the estimator reset on load.

  The JUCE transport, resampler and format readers are not modelled: the
  frames a callback produces, the transport's position and length, and the
  sample rate of a newly opened reader are parameters.
 */
module DJAudioPlayer {
  import opened BPMCalculator
  import opened CNumeric
  import opened Wrappers

  datatype Player = Player(
    estimator: Calculator,              // the tempo estimator this player feeds
    currentBPM: real,              // tempo copied from the estimator on each drained block
    leftPeak: real,                // highest left magnitude since the last level read
    rightPeak: real,               // highest right magnitude since the last level read
    currentGain: real,             // transport gain
    currentCrossfadeRatio: real,   // gain applied to the output after metering
    resamplingRatio: real,         // playback speed
    dimWhileScrubbing: bool        // output attenuated while the position slider is dragged
  )

  /** Gain applied to the output while scrubbing. */
  const ScrubbingGain: real := 0.1

  /* ---------------------------------------------------------------------- */
  /* Levels                                                                  */
  /* ---------------------------------------------------------------------- */

  /** JUCE's `getMagnitude` over one channel: the largest absolute sample, 0 for no samples. */
  function Magnitude(xs: seq<real>): (m: real)
    ensures m >= 0.0
    ensures forall i :: 0 <= i < |xs| ==> Abs(xs[i]) <= m
    ensures m == 0.0 || exists i :: 0 <= i < |xs| && Abs(xs[i]) == m
  {
    if |xs| == 0 then 0.0
    else
      var m := Max(Magnitude(xs[..|xs| - 1]), Abs(xs[|xs| - 1]));
      assert forall i :: 0 <= i < |xs| - 1 ==> xs[..|xs| - 1][i] == xs[i];
      m
  }

  function Lefts(frames: seq<Frame>): (xs: seq<real>)
    ensures |xs| == |frames| && forall i :: 0 <= i < |frames| ==> xs[i] == frames[i].left
  {
    seq(|frames|, i requires 0 <= i < |frames| => frames[i].left)
  }

  function Rights(frames: seq<Frame>): (xs: seq<real>)
    ensures |xs| == |frames| && forall i :: 0 <= i < |frames| ==> xs[i] == frames[i].right
  {
    seq(|frames|, i requires 0 <= i < |frames| => frames[i].right)
  }

  /** The peak update at the start of the audio callback. */
  function TrackPeaks(p: Player, frames: seq<Frame>): (r: Player)
    ensures r.leftPeak >= p.leftPeak && r.rightPeak >= p.rightPeak
    ensures forall i :: 0 <= i < |frames| ==> Abs(frames[i].left) <= r.leftPeak && Abs(frames[i].right) <= r.rightPeak
    ensures r.leftPeak == p.leftPeak || r.leftPeak == Magnitude(Lefts(frames))
    ensures r.rightPeak == p.rightPeak || r.rightPeak == Magnitude(Rights(frames))
    ensures r == p.(leftPeak := r.leftPeak, rightPeak := r.rightPeak)
  {
    var l := Magnitude(Lefts(frames));
    var rr := Magnitude(Rights(frames));
    p.(leftPeak := if l > p.leftPeak then l else p.leftPeak,
       rightPeak := if rr > p.rightPeak then rr else p.rightPeak)
  }

  lemma {:induction false} MagnitudeOfConcat(xs: seq<real>, ys: seq<real>)
    ensures Magnitude(xs + ys) == Max(Magnitude(xs), Magnitude(ys))
    decreases |ys|
  {
    if |ys| > 0 {
      var zs := xs + ys;
      var front := ys[..|ys| - 1];
      assert zs[..|zs| - 1] == xs + front;
      assert zs[|zs| - 1] == ys[|ys| - 1];
      assert Magnitude(zs) == Max(Magnitude(xs + front), Abs(ys[|ys| - 1]));
      assert Magnitude(ys) == Max(Magnitude(front), Abs(ys[|ys| - 1]));
      MagnitudeOfConcat(xs, front);
    } else {
      assert xs + ys == xs;
    }
  }

  /** `getLevels`: the held peaks, after which both are reset to 0. */
  function GetLevels(p: Player): (r: (real, real, Player))
    ensures r.0 == p.leftPeak && r.1 == p.rightPeak
    ensures r.2.leftPeak == 0.0 && r.2.rightPeak == 0.0
    ensures r.2 == p.(leftPeak := 0.0, rightPeak := 0.0)
  {
    (p.leftPeak, p.rightPeak, p.(leftPeak := 0.0, rightPeak := 0.0))
  }

  /**
    Peak hold between two level reads: after a read, two audio callbacks
    leave the loudest sample of both blocks as the next reading.
   */
  lemma PeakHold(p: Player, first: seq<Frame>, second: seq<Frame>)
    ensures var r := GetLevels(TrackPeaks(TrackPeaks(GetLevels(p).2, first), second));
      r.0 == Magnitude(Lefts(first + second)) && r.1 == Magnitude(Rights(first + second))
  {
    assert Lefts(first + second) == Lefts(first) + Lefts(second);
    assert Rights(first + second) == Rights(first) + Rights(second);
    MagnitudeOfConcat(Lefts(first), Lefts(second));
    MagnitudeOfConcat(Rights(first), Rights(second));
  }

  /* ---------------------------------------------------------------------- */
  /* The audio callback                                                      */
  /* ---------------------------------------------------------------------- */

  /** All blocks, in order, joined back into one frame sequence. */
  function Flatten(blocks: seq<seq<Frame>>): seq<Frame> {
    if |blocks| == 0 then [] else Flatten(blocks[..|blocks| - 1]) + blocks[|blocks| - 1]
  }

  /** Both channels of every frame multiplied by the gain `g`. */
  function Scale(frames: seq<Frame>, g: real): (out: seq<Frame>)
    ensures |out| == |frames|
    ensures forall i :: 0 <= i < |frames| ==> out[i] == Frame(frames[i].left * g, frames[i].right * g)
  {
    seq(|frames|, i requires 0 <= i < |frames| => Frame(frames[i].left * g, frames[i].right * g))
  }

  /**
    Two gains applied one after the other are one gain of their product, so
    the crossfade followed by the scrubbing dim is a single scaling.
   */
  lemma ScaleComposes(frames: seq<Frame>, a: real, b: real)
    ensures Scale(Scale(frames, a), b) == Scale(frames, a * b)
    ensures Scale(frames, 1.0) == frames
  {
    var twice := Scale(Scale(frames, a), b);
    forall i | 0 <= i < |frames| ensures twice[i] == Scale(frames, a * b)[i] {
      assert frames[i].left * a * b == frames[i].left * (a * b);
      assert frames[i].right * a * b == frames[i].right * (a * b);
    }
  }

  /** The consumer state after `step` has been applied to each block in order. */
  function Fold<S>(step: (S, seq<Frame>) -> S, s: S, blocks: seq<seq<Frame>>): S {
    if |blocks| == 0 then s else step(Fold(step, s, blocks[..|blocks| - 1]), blocks[|blocks| - 1])
  }

  lemma FoldAppend<S>(step: (S, seq<Frame>) -> S, s: S, blocks: seq<seq<Frame>>, block: seq<Frame>)
    ensures Fold(step, s, blocks + [block]) == step(Fold(step, s, blocks), block)
    ensures Flatten(blocks + [block]) == Flatten(blocks) + block
  {
    var d := blocks + [block];
    assert d[..|d| - 1] == blocks;
  }

  /** Every block holds at least `n` frames. */
  predicate LongEnough(blocks: seq<seq<Frame>>, n: int) {
    forall k :: 0 <= k < |blocks| ==> |blocks[k]| >= n
  }

  /** Every block holds exactly `n` frames. */
  predicate AllOfLength(blocks: seq<seq<Frame>>, n: int) {
    forall k :: 0 <= k < |blocks| ==> |blocks[k]| == n
  }

  lemma BlockLengthsAppend(blocks: seq<seq<Frame>>, block: seq<Frame>, n: int)
    ensures LongEnough(blocks, n) && |block| >= n ==> LongEnough(blocks + [block], n)
    ensures AllOfLength(blocks, n) && |block| == n ==> AllOfLength(blocks + [block], n)
  {
  }

  /** Appending the next frame to the FIFO extends the fed prefix by that frame. */
  lemma FifoGrows(pending: seq<Frame>, frames: seq<Frame>, i: nat, flat: seq<Frame>, fifo: seq<Frame>)
    requires i < |frames| && flat + fifo == pending + frames[..i]
    ensures flat + (fifo + [frames[i]]) == pending + frames[..i + 1]
  {
    var x := frames[i];
    assert frames[..i + 1] == frames[..i] + [x];
    assert flat + (fifo + [x]) == (flat + fifo) + [x];
    assert (pending + frames[..i]) + [x] == pending + (frames[..i] + [x]);
  }

  /**
    The feeding loop of the audio callback, for any consumer of blocks:
    every frame is appended to the FIFO, which is first handed to `step`
    as a block (and emptied) whenever it already holds `blockSize` frames.
    `drained` lists the blocks handed over, in order.
   */
  method FeedFrames<S>(step: (S, seq<Frame>) -> S, start: S, pending: seq<Frame>, blockSize: int, frames: seq<Frame>)
    returns (s: S, fifo: seq<Frame>, submitted: nat, ghost drained: seq<seq<Frame>>)
    ensures submitted == |drained|
    ensures s == Fold(step, start, drained)
    ensures Flatten(drained) + fifo == pending + frames
    ensures LongEnough(drained, blockSize)
    ensures 0 < blockSize && |pending| <= blockSize ==> |fifo| <= blockSize && AllOfLength(drained, blockSize)
    ensures |frames| > 0 ==> |fifo| >= 1
    ensures |frames| == 0 ==> drained == [] && fifo == pending
  {
    s := start;
    fifo := pending;
    drained := [];
    submitted := 0;
    var i := 0;
    while i < |frames|
      invariant 0 <= i <= |frames|
      invariant submitted == |drained|
      invariant s == Fold(step, start, drained)
      invariant Flatten(drained) + fifo == pending + frames[..i]
      invariant LongEnough(drained, blockSize)
      invariant 0 < blockSize && |pending| <= blockSize ==> |fifo| <= blockSize && AllOfLength(drained, blockSize)
      invariant i > 0 ==> |fifo| >= 1
      invariant i == 0 ==> drained == [] && fifo == pending
    {
      if |fifo| >= blockSize {
        FoldAppend(step, start, drained, fifo);
        BlockLengthsAppend(drained, fifo, blockSize);
        drained := drained + [fifo];
        submitted := submitted + 1;
        s := step(s, fifo);
        fifo := [];
      }
      FifoGrows(pending, frames, i, Flatten(drained), fifo);
      fifo := fifo + [frames[i]];
      i := i + 1;
    }
    assert frames[..|frames|] == frames;
  }

  /** The estimator's block step as a total function; an invalid estimator is never reached. */
  function Submit(c: Calculator, block: seq<Frame>): Calculator {
    if c.Valid() then SubmitBlock(c, block) else c
  }

  lemma {:induction false} FoldSubmit(start: Calculator, blocks: seq<seq<Frame>>)
    requires start.Valid()
    ensures Fold(Submit, start, blocks) == SubmitBlocks(start, blocks)
  {
    if |blocks| > 0 {
      FoldSubmit(start, blocks[..|blocks| - 1]);
    }
  }

  /**
    `getNextAudioBlock`, given the frames the resampler produced: records the
    peaks, feeds the frames into the estimator's block FIFO (submitting it
    as a block whenever it already holds a full one), copies the estimator's
    tempo if a block was submitted, and returns the output scaled by the
    crossfade ratio (and by 0.1 while scrubbing). `drained` lists the
    submitted blocks, in order.
   */
  method GetNextAudioBlock(p: Player, frames: seq<Frame>) returns (r: Player, output: seq<Frame>, ghost drained: seq<seq<Frame>>)
    requires p.estimator.Valid()
    ensures r.estimator == SubmitBlocks(p.estimator, drained).(blockBuffer := r.estimator.blockBuffer)
    ensures Flatten(drained) + r.estimator.blockBuffer == p.estimator.blockBuffer + frames
    ensures LongEnough(drained, p.estimator.samplesPerBlock)
    ensures |p.estimator.blockBuffer| <= p.estimator.samplesPerBlock ==>
              |r.estimator.blockBuffer| <= p.estimator.samplesPerBlock && AllOfLength(drained, p.estimator.samplesPerBlock)
    ensures |frames| > 0 ==> |r.estimator.blockBuffer| >= 1
    ensures |frames| == 0 ==> r.estimator == p.estimator && r.currentBPM == p.currentBPM
    ensures r.currentBPM == if |drained| > 0 then p.estimator.bpm else p.currentBPM
    ensures r.leftPeak == Max(p.leftPeak, Magnitude(Lefts(frames)))
    ensures r.rightPeak == Max(p.rightPeak, Magnitude(Rights(frames)))
    ensures r == TrackPeaks(p, frames).(estimator := r.estimator, currentBPM := r.currentBPM)
    ensures output == Scale(frames, p.currentCrossfadeRatio * (if p.dimWhileScrubbing then ScrubbingGain else 1.0))
  {
    var c, fifo, submitted;
    c, fifo, submitted, drained := FeedFrames(Submit, p.estimator, p.estimator.blockBuffer, p.estimator.samplesPerBlock, frames);
    FoldSubmit(p.estimator, drained);
    var bpm := if submitted > 0 then c.bpm else p.currentBPM;
    r := TrackPeaks(p, frames).(estimator := c.(blockBuffer := fifo), currentBPM := bpm);
    output := Scale(frames, p.currentCrossfadeRatio * (if p.dimWhileScrubbing then ScrubbingGain else 1.0));
  }

  /* ---------------------------------------------------------------------- */
  /* Loading a track                                                         */
  /* ---------------------------------------------------------------------- */

  /**
    `loadURL`: with a reader (given by its sample rate) the estimator gets
    the new rate, its debounce and beat counters restart, the tempo log is
    cleared and the tempo returns to the sentinel. The block FIFO, the energy
    window and both block counters are carried over from the previous track.
    Without a reader nothing changes.
   */
  function LoadURL(p: Player, readerSampleRate: Option<real>): (r: Player)
    ensures readerSampleRate.None? ==> r == p
    ensures readerSampleRate.Some? ==>
      && r.estimator.sampleRate == readerSampleRate.value
      && r.estimator.localPeakCounter == 0 && r.estimator.localBeatCounter == 0 && r.estimator.beatCounter == 0
      && r.estimator.instantBpm == [] && r.estimator.bpm == NoTempo
      && r.estimator.energyBuffer == p.estimator.energyBuffer && r.estimator.blockBuffer == p.estimator.blockBuffer
      && r.estimator.blockCounter == p.estimator.blockCounter && r.estimator.localBlockCounter == p.estimator.localBlockCounter
      && r == p.(estimator := r.estimator)
  {
    match readerSampleRate
    case None => p
    case Some(rate) =>
      p.(estimator := p.estimator.(sampleRate := rate, localPeakCounter := 0, localBeatCounter := 0,
                         beatCounter := 0, instantBpm := [], bpm := NoTempo))
  }

  /**
    After a load the display shows no tempo until a span has closed, and
    loading the same reader again changes nothing further.
   */
  lemma LoadURLResets(p: Player, rate: real)
    ensures TimerCallback(LoadURL(p, Some(rate)).estimator).bpm == NoTempo
    ensures LoadURL(LoadURL(p, Some(rate)), Some(rate)) == LoadURL(p, Some(rate))
    ensures rate >= 0.0 && p.estimator.samplesPerBlock > 0 ==> LoadURL(p, Some(rate)).estimator.Valid()
  {
  }

  /* ---------------------------------------------------------------------- */
  /* Range-checked setters and position queries                              */
  /* ---------------------------------------------------------------------- */

  /** `setGain`: accepted only within [0, 100]. */
  function SetGain(p: Player, gain: real): (r: Player)
    ensures 0.0 <= gain <= 100.0 ==> r == p.(currentGain := gain)
    ensures !(0.0 <= gain <= 100.0) ==> r == p
  {
    if gain < 0.0 || gain > 100.0 then p else p.(currentGain := gain)
  }

  /** `setCrossfadeRatio`: accepted only within [0, 1]. */
  function SetCrossfadeRatio(p: Player, ratio: real): (r: Player)
    ensures 0.0 <= ratio <= 1.0 ==> r == p.(currentCrossfadeRatio := ratio)
    ensures !(0.0 <= ratio <= 1.0) ==> r == p
  {
    if ratio < 0.0 || ratio > 1.0 then p else p.(currentCrossfadeRatio := ratio)
  }

  /** `setSpeed`: a resampling ratio accepted only within [0.5, 2]. */
  function SetSpeed(p: Player, ratio: real): (r: Player)
    ensures 0.5 <= ratio <= 2.0 ==> r == p.(resamplingRatio := ratio)
    ensures !(0.5 <= ratio <= 2.0) ==> r == p
  {
    if ratio < 0.5 || ratio > 2.0 then p else p.(resamplingRatio := ratio)
  }

  /** The ranges the setters admit. */
  predicate InRange(p: Player) {
    0.0 <= p.currentGain <= 100.0 && 0.0 <= p.currentCrossfadeRatio <= 1.0 && 0.5 <= p.resamplingRatio <= 2.0
  }

  /** Whatever is passed, the setters never take a player out of range. */
  lemma SettersKeepRange(p: Player, x: real)
    requires InRange(p)
    ensures InRange(SetGain(p, x)) && InRange(SetCrossfadeRatio(p, x)) && InRange(SetSpeed(p, x))
  {
  }

  /**
    `setPositionRelative`: for a fraction in [0, 1], the seek target in
    seconds for a transport of the given length; otherwise no seek.
   */
  function SetPositionRelative(pos: real, lengthInSeconds: real): (seek: Option<real>)
    ensures seek.Some? <==> 0.0 <= pos <= 1.0
    ensures seek.Some? ==> seek.value == pos * lengthInSeconds
  {
    if pos < 0.0 || pos > 1.0 then None else Some(pos * lengthInSeconds)
  }

  /** `getPositionRelative`: position over length, or 0 for a transport without length. */
  function GetPositionRelative(position: real, lengthInSeconds: real): (fraction: real)
    ensures lengthInSeconds <= 0.0 ==> fraction == 0.0
    ensures lengthInSeconds > 0.0 ==> fraction * lengthInSeconds == position
    ensures lengthInSeconds > 0.0 && 0.0 <= position <= lengthInSeconds ==> 0.0 <= fraction <= 1.0
  {
    if lengthInSeconds > 0.0 then position / lengthInSeconds else 0.0
  }

  /** Seeking to a fraction and reading the fraction back gives the same fraction. */
  lemma PositionRoundTrip(pos: real, lengthInSeconds: real)
    requires 0.0 <= pos <= 1.0 && lengthInSeconds > 0.0
    ensures GetPositionRelative(SetPositionRelative(pos, lengthInSeconds).value, lengthInSeconds) == pos
  {
  }

  /** `getLengthInSeconds`: the transport's length truncated to whole seconds. */
  function LengthInSeconds(lengthInSeconds: real): (n: int)
    ensures lengthInSeconds >= 0.0 ==> 0 <= n && n as real <= lengthInSeconds < n as real + 1.0
  {
    Trunc(lengthInSeconds)
  }
}
