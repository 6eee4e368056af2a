/**
  The level meter (`LevelMeter`): a smoothed level that follows rises at
  once and decays by a falloff factor (0.95, then 0.8 for good once the
  level has dropped below 0.2), with a silence floor at 0.01; a peak hold;
  and the number of whole meter blocks to paint plus the opacity of the
  last one. The component's width or height ("extent") is a parameter.
 */
module LevelMeter {
  import opened CNumeric

  datatype Meter = Meter(
    resolution: int,        // maximum number of meter blocks
    vertical: bool,         // extent is the height when true, the width otherwise
    blockSize: real,        // size of one painted block, set on resize
    numBlocks: int,         // whole blocks to paint
    peak: real,             // highest level shown so far
    smoothed: real,         // the smoothed level
    finalAlpha: real,       // opacity of the partly filled last block
    orangeTransition: real,
    redTransition: real,
    minLevel: real,         // silence floor
    falloff: real           // decay factor per update
  )

  const InitialFalloff: real := 0.95
  const LowLevelFalloff: real := 0.8
  /** Below this smoothed level the faster falloff takes over. */
  const LowLevel: real := 0.2
  const SilenceFloor: real := 0.01

  /** The constructor: nothing shown yet, and no block size until the first resize. */
  function New(resolution: int, vertical: bool): (m: Meter)
    ensures m.resolution == resolution && m.vertical == vertical
    ensures m.blockSize == 0.0 && m.numBlocks == 0 && m.peak == 0.0 && m.smoothed == 0.0 && m.finalAlpha == 1.0
    ensures m.orangeTransition == 0.6 && m.redTransition == 0.93
    ensures m.minLevel == SilenceFloor && m.falloff == InitialFalloff
  {
    Meter(resolution, vertical, 0.0, 0, 0.0, 0.0, 1.0, 0.6, 0.93, SilenceFloor, InitialFalloff)
  }

  /** What every update keeps: a non-negative smoothed level, the fixed floor, one of the two falloffs. */
  predicate Valid(m: Meter) {
    m.smoothed >= 0.0 && m.minLevel == SilenceFloor && (m.falloff == InitialFalloff || m.falloff == LowLevelFalloff)
  }

  /**
    `resized`: the block size is the extent divided by the resolution in
    integer arithmetic, so a whole number of pixels.
   */
  function Resized(m: Meter, extent: int): (r: Meter)
    requires m.resolution != 0
    ensures r == m.(blockSize := r.blockSize)
    ensures extent >= 0 && m.resolution > 0 ==>
      var b := r.blockSize.Floor;
      r.blockSize == b as real && 0 <= b && b * m.resolution <= extent < (b + 1) * m.resolution
  {
    m.(blockSize := CDiv(extent, m.resolution) as real)
  }

  /** The smoothing and peak hold at the start of `displayLevel`. */
  function Smooth(m: Meter, level: real): (r: Meter)
    ensures r == m.(smoothed := r.smoothed, falloff := r.falloff, peak := r.peak)
    ensures level > m.smoothed ==> r.smoothed == level && r.falloff == m.falloff
    ensures level <= m.smoothed ==>
      r.falloff == (if m.smoothed < LowLevel then LowLevelFalloff else m.falloff) &&
      var decayed := Max(m.smoothed * r.falloff, level);
      r.smoothed == (if decayed < m.minLevel then 0.0 else decayed)
    ensures r.peak == Max(m.peak, level)
  {
    var peak := if level > m.peak then level else m.peak;
    if level > m.smoothed then m.(smoothed := level, peak := peak)
    else
      var falloff := if m.smoothed < LowLevel then LowLevelFalloff else m.falloff;
      var s := m.smoothed * falloff;
      var s := if level > s then level else s;
      var s := if s < m.minLevel then 0.0 else s;
      m.(smoothed := s, falloff := falloff, peak := peak)
  }

  /**
    The block count and last-block opacity at the end of `displayLevel`:
    the scaled level truncated to whole pixels, divided by the block size and
    truncated again; the opacity is the remainder over one block.
   */
  function Blocks(m: Meter, extent: int): (r: Meter)
    requires m.blockSize != 0.0
    ensures r == m.(numBlocks := r.numBlocks, finalAlpha := r.finalAlpha)
    ensures r.finalAlpha * m.blockSize == extent as real * m.smoothed - r.numBlocks as real * m.blockSize
    ensures extent >= 0 && m.smoothed >= 0.0 && m.blockSize > 0.0 ==>
      && 0 <= r.numBlocks
      && r.numBlocks as real * m.blockSize <= extent as real * m.smoothed
      && 0.0 <= r.finalAlpha
    ensures extent >= 0 && m.smoothed >= 0.0 && m.blockSize > 0.0 ==>
      r.numBlocks as real * m.blockSize <= Trunc(extent as real * m.smoothed) as real < (r.numBlocks + 1) as real * m.blockSize
  {
    var scaled := extent as real * m.smoothed;
    var (n, alpha) := BlockFit(scaled, m.blockSize);
    var r := m.(numBlocks := n, finalAlpha := alpha);
    if extent >= 0 && m.smoothed >= 0.0 then ProductNonNegative(extent as real, m.smoothed); r else r
  }

  /**
    The whole blocks of size `b` in a scaled level, counted as the level
    truncated to whole pixels over the block size, truncated again; and the
    share of the next block left over. For a non-negative level and a
    positive block size, the count is the number of blocks that fit.
   */
  function BlockFit(scaled: real, b: real): (r: (int, real))
    requires b != 0.0
    ensures r.1 * b == scaled - r.0 as real * b
    ensures b > 0.0 && scaled >= 0.0 ==>
      && 0 <= r.0
      && r.0 as real * b <= Trunc(scaled) as real < (r.0 + 1) as real * b
      && r.0 as real * b <= scaled
      && r.1 >= 0.0
  {
    var n := Trunc(Trunc(scaled) as real / b);
    var alpha := (scaled - n as real * b) / b;
    BlockCount(scaled, b, n, alpha);
    (n, alpha)
  }

  lemma BlockCount(scaled: real, b: real, n: int, alpha: real)
    requires b != 0.0 && n == Trunc(Trunc(scaled) as real / b) && alpha == (scaled - n as real * b) / b
    ensures alpha * b == scaled - n as real * b
    ensures b > 0.0 && scaled >= 0.0 ==>
      && 0 <= n
      && n as real * b <= Trunc(scaled) as real < (n + 1) as real * b
      && n as real * b <= scaled
      && alpha >= 0.0
  {
    QuotientTimesDivisor(scaled - n as real * b, b);
    if b > 0.0 && scaled >= 0.0 {
      WholeBlocksOfTruncated(scaled, b, Trunc(scaled), n);
      QuotientNonNegative(scaled - n as real * b, b);
    }
  }

  lemma WholeBlocksOfTruncated(scaled: real, b: real, t: int, n: int)
    requires b > 0.0 && scaled >= 0.0 && t == Trunc(scaled) && n == Trunc(t as real / b)
    ensures 0 <= n && n as real * b <= t as real <= scaled && t as real < (n + 1) as real * b
  {
    QuotientNonNegative(t as real, b);
    WholeBlocks(n, t as real, b);
  }

  /** `n` whole blocks of size `b` fit in `x` and one more does not, when `n` is `x / b` truncated. */
  lemma WholeBlocks(n: int, x: real, b: real)
    requires b > 0.0 && x >= 0.0 && n == Trunc(x / b)
    ensures n as real * b <= x < (n + 1) as real * b
  {
    QuotientTimesDivisor(x, b);
    BlocksBelow(n, x, b, x / b);
    BlocksAbove(n, x, b, x / b);
  }

  lemma QuotientTimesDivisor(x: real, b: real)
    requires b != 0.0
    ensures (x / b) * b == x
  {
  }

  lemma BlocksBelow(n: int, x: real, b: real, q: real)
    requires b > 0.0 && q * b == x && n as real <= q
    ensures n as real * b <= x
  {
    ScaleMonotone(n as real, q, b);
  }

  lemma BlocksAbove(n: int, x: real, b: real, q: real)
    requires b > 0.0 && q * b == x && q < n as real + 1.0
    ensures x < (n + 1) as real * b
  {
    ScaleMonotone(q, (n + 1) as real, b);
  }

  lemma QuotientNonNegative(x: real, b: real)
    requires b > 0.0 && x >= 0.0
    ensures x / b >= 0.0
  {
  }

  lemma ProductNonNegative(x: real, y: real)
    requires x >= 0.0 && y >= 0.0
    ensures x * y >= 0.0
  {
  }

  /** Scaling by a positive factor keeps the order. */
  lemma ScaleMonotone(a: real, c: real, b: real)
    requires b > 0.0
    ensures a <= c ==> a * b <= c * b
    ensures a < c ==> a * b < c * b
  {
    if a < c { assert (c - a) * b > 0.0; }
    if a <= c { assert (c - a) * b >= 0.0; }
  }

  /** `displayLevel`: smoothing and peak hold, then the blocks to paint. */
  function DisplayLevel(m: Meter, level: real, extent: int): (r: Meter)
    requires m.blockSize != 0.0
    ensures Valid(m) ==> Valid(r)
    ensures r.smoothed >= level || (r.smoothed == 0.0 && level < m.minLevel)
    ensures level <= m.smoothed && m.smoothed >= 0.0 && m.falloff <= 1.0 ==> r.smoothed <= m.smoothed
    ensures r.peak >= m.peak && r.peak >= level
    ensures extent >= 0 && level >= 0.0 && m.smoothed >= 0.0 && m.blockSize > 0.0 ==> r.numBlocks >= 0
  {
    SmoothBounds(m, level);
    Blocks(Smooth(m, level), extent)
  }

  /** The smoothed level stays non-negative for a non-negative input, and a non-rise never raises it. */
  lemma SmoothBounds(m: Meter, level: real)
    ensures level >= 0.0 && m.smoothed >= 0.0 ==> Smooth(m, level).smoothed >= 0.0
    ensures level <= m.smoothed && m.smoothed >= 0.0 && m.falloff <= 1.0 ==> Smooth(m, level).smoothed <= m.smoothed
  {
    var s := Smooth(m, level);
    if m.smoothed >= 0.0 && s.falloff <= 1.0 {
      ProductNonNegative(m.smoothed, 1.0 - s.falloff);
    }
  }

  /** The faster falloff, once chosen, is kept; it is chosen exactly when a non-rise finds the level below 0.2. */
  lemma FalloffSticky(m: Meter, level: real, extent: int)
    requires m.blockSize != 0.0
    ensures m.falloff == LowLevelFalloff ==> DisplayLevel(m, level, extent).falloff == LowLevelFalloff
    ensures DisplayLevel(m, level, extent).falloff != m.falloff <==>
      m.falloff != LowLevelFalloff && level <= m.smoothed && m.smoothed < LowLevel
  {
  }

  /** A steady level at or above the floor is a fixed point of the smoothing. */
  lemma SteadyLevel(m: Meter, extent: int)
    requires m.blockSize != 0.0 && Valid(m) && m.smoothed >= SilenceFloor
    ensures DisplayLevel(m, m.smoothed, extent).smoothed == m.smoothed
  {
  }

  /** Silence makes a shown level fall strictly, down to zero below the floor. */
  lemma SilenceDecays(m: Meter, level: real, extent: int)
    requires m.blockSize != 0.0 && Valid(m) && m.smoothed > 0.0 && level <= 0.0
    ensures DisplayLevel(m, level, extent).smoothed < m.smoothed
    ensures m.smoothed * DisplayLevel(m, level, extent).falloff < SilenceFloor ==> DisplayLevel(m, level, extent).smoothed == 0.0
  {
  }

  /** Meters built with a positive resolution and resized once can display. */
  lemma ResizedCanDisplay(resolution: int, vertical: bool, extent: int)
    requires resolution > 0 && extent >= resolution
    ensures Resized(New(resolution, vertical), extent).blockSize >= 1.0
    ensures Valid(New(resolution, vertical))
  {
  }
}
