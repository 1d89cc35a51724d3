/** Consensus parameters (consensus/core/src/config/params.rs): the numeric fields the
    derived window sizes and depths are computed from, the mainnet table, and the
    `DIFFICULTY_MAX` constant. Every derived quantity is computed in `u64` arithmetic that
    aborts on overflow, underflow or division by zero. */
module Params {
  import opened Common
  import opened Arithmetic
  import Difficulty

  /** The fields of `Params` the derived quantities read; `ghostdagK` is a `KType` (`u16`) and
      the window size a 64-bit `usize`. */
  datatype Params = Params(
    ghostdagK: u16,
    timestampDeviationTolerance: u64,
    sampleTimestampDeviationTolerance: u64,
    pastMedianTimeSampleRate: u64,
    targetTimePerBlock: u64,
    difficultySampleRate: u64,
    difficultyWindowSize: u64,
    mergesetSizeLimit: u64,
    mergeDepth: u64,
    finalityDepth: u64,
    maxDifficulty: Uint256)

  /** A `Uint256`: four 64-bit limbs, least significant first. */
  type Uint256 = s: seq<u64> | |s| == 4 witness [0, 0, 0, 0]

  /** The number a `Uint256` denotes. */
  function Uint256Value(x: Uint256): (v: nat)
    ensures v < TWO_256
  {
    x[0] + TWO_64 * (x[1] + TWO_64 * (x[2] + TWO_64 * x[3]))
  }

  const TIMESTAMP_DEVIATION_TOLERANCE: u64 := 132
  const SAMPLE_TIMESTAMP_DEVIATION_TOLERANCE: u64 := 600
  const PAST_MEDIAN_TIME_SAMPLE_RATE: u64 := 10

  /** The highest proof of work target of every network. */
  const DIFFICULTY_MAX: Uint256 := [0xFFFF_FFFF_FFFF_FFFF, 0xFFFF_FFFF_FFFF_FFFF, 0xFFFF_FFFF_FFFF_FFFF, 0x7FFF_FFFF_FFFF_FFFF]

  const DIFFICULTY_WINDOW_SIZE: u64 := 2641
  const DIFFICULTY_SAMPLE_RATE: u64 := 30
  const DEFAULT_GHOSTDAG_K: u16 := 18

  /** The modelled fields of `MAINNET_PARAMS`; the other network tables agree on them. */
  const MAINNET_PARAMS: Params := Params(
    ghostdagK := DEFAULT_GHOSTDAG_K,
    timestampDeviationTolerance := TIMESTAMP_DEVIATION_TOLERANCE,
    sampleTimestampDeviationTolerance := SAMPLE_TIMESTAMP_DEVIATION_TOLERANCE,
    pastMedianTimeSampleRate := PAST_MEDIAN_TIME_SAMPLE_RATE,
    targetTimePerBlock := 1000,
    difficultySampleRate := DIFFICULTY_SAMPLE_RATE,
    difficultyWindowSize := DIFFICULTY_WINDOW_SIZE,
    mergesetSizeLimit := DEFAULT_GHOSTDAG_K as u64 * 10,
    mergeDepth := 3600,
    finalityDepth := 86400,
    maxDifficulty := DIFFICULTY_MAX)

  /** `DIFFICULTY_MAX` is 2^255 - 1. */
  lemma DifficultyMaxValue()
    ensures Uint256Value(DIFFICULTY_MAX) == TWO_256 / 2 - 1
  {
  }

  /** The easiest target, `DIFFICULTY_MAX`, takes two hashes on average. */
  lemma MaxDifficultyWork(codec: Difficulty.CompactCodec, bits: u32)
    requires Difficulty.ValidCodec(codec) && codec.fromCompact(bits) == Uint256Value(DIFFICULTY_MAX)
    ensures Difficulty.CalcWork(codec, bits) == Done(2)
  {
    DifficultyMaxValue();
    DivUnique(TWO_256, TWO_256 / 2, 2, 0);
  }

  /** `past_median_time_window_size`: an odd window of `2 * tolerance - 1` blocks, so that its
      median has `tolerance - 1` blocks on either side. */
  function PastMedianTimeWindowSize(p: Params): (r: Checked<u64>)
    ensures r.Done? <==> 0 < p.timestampDeviationTolerance && 2 * p.timestampDeviationTolerance < TWO_64
    ensures r.Done? ==> r.value % 2 == 1 && r.value / 2 == p.timestampDeviationTolerance - 1
  {
    var doubled := 2 * p.timestampDeviationTolerance;
    if doubled >= TWO_64 || doubled < 1 then Panic else Done(doubled - 1)
  }

  /** `past_median_time_sample_window_size`: the tolerance counted in samples, rounded to the
      nearest whole sample (halves up), gives an odd window with that many samples on either
      side of the median but one. */
  function PastMedianTimeSampleWindowSize(p: Params): (r: Checked<u64>)
    ensures r.Done? ==> p.pastMedianTimeSampleRate > 0 && r.value % 2 == 1
    ensures r.Done? ==>
      var samples := r.value / 2 + 1;
      var rate := p.pastMedianTimeSampleRate;
      samples * rate <= p.sampleTimestampDeviationTolerance + rate / 2 < (samples + 1) * rate
    ensures r.Panic? <==> (p.pastMedianTimeSampleRate == 0
      || p.sampleTimestampDeviationTolerance + p.pastMedianTimeSampleRate / 2 >= TWO_64
      || p.sampleTimestampDeviationTolerance + p.pastMedianTimeSampleRate / 2 < p.pastMedianTimeSampleRate
      || 2 * ((p.sampleTimestampDeviationTolerance + p.pastMedianTimeSampleRate / 2) / p.pastMedianTimeSampleRate) >= TWO_64)
  {
    var rate := p.pastMedianTimeSampleRate;
    if rate == 0 then Panic
    else
      var rounded := p.sampleTimestampDeviationTolerance + rate / 2;
      if rounded >= TWO_64 then Panic
      else
        var samples := rounded / rate;
        assert samples * rate <= rounded < (samples + 1) * rate by {
          assert rounded == rate * samples + rounded % rate;
          assert rate * (samples + 1) == rate * samples + rate;
        }
        DivLessIff(rounded, rate, 1);
        if 2 * samples >= TWO_64 || samples == 0 then Panic else Done(2 * samples - 1)
  }

  /** `expected_daa_window_duration_in_milliseconds`: the time the difficulty window spans at
      the target block rate, `window size - 1` sampling intervals of `sample rate` blocks. */
  function ExpectedDaaWindowDurationInMilliseconds(p: Params): (r: Checked<u64>)
    ensures r.Done? <==> (p.difficultyWindowSize >= 1
      && p.targetTimePerBlock * p.difficultySampleRate < TWO_64
      && p.targetTimePerBlock * p.difficultySampleRate * (p.difficultyWindowSize - 1) < TWO_64)
    ensures r.Done? ==> r.value == p.targetTimePerBlock * p.difficultySampleRate * (p.difficultyWindowSize - 1)
  {
    var perSample: nat := p.targetTimePerBlock * p.difficultySampleRate;
    if perSample >= TWO_64 || p.difficultyWindowSize < 1 then Panic
    else
      var intervals: nat := p.difficultyWindowSize - 1;
      var duration: nat := perSample * intervals;
      if duration >= TWO_64 then Panic else Done(duration)
  }

  /** `anticone_finalization_depth`: finality depth, merge depth, `4 * mergeset limit * k`,
      `2 * k` and 2, summed left to right. It aborts exactly when the result, or the product
      `4 * mergeset limit`, leaves `u64`. */
  function AnticoneFinalizationDepth(p: Params): (r: Checked<u64>)
    ensures var k := p.ghostdagK as nat;
      var total := p.finalityDepth + p.mergeDepth + 4 * p.mergesetSizeLimit * k + 2 * k + 2;
      && (r.Done? <==> 4 * p.mergesetSizeLimit < TWO_64 && total < TWO_64)
      && (r.Done? ==> r.value == total)
  {
    var k := p.ghostdagK as nat;
    var depths := p.finalityDepth + p.mergeDepth;
    var limit4 := 4 * p.mergesetSizeLimit;
    if depths >= TWO_64 || limit4 >= TWO_64 then Panic
    else
      var mergesets := limit4 * k;
      if mergesets >= TWO_64 || depths + mergesets >= TWO_64 || depths + mergesets + 2 * k + 2 >= TWO_64 then Panic
      else Done(depths + mergesets + 2 * k + 2)
  }

  /** `is_nearly_synced`, with `unix_now()` passed as `now`: the sink is less than one DAA
      window duration old. */
  function IsNearlySynced(p: Params, now: u64, sinkTimestamp: u64): (r: Checked<bool>)
    ensures r.Done? <==> (ExpectedDaaWindowDurationInMilliseconds(p).Done?
      && sinkTimestamp + ExpectedDaaWindowDurationInMilliseconds(p).value < TWO_64)
    ensures r.Done? ==> (r.value <==> now - sinkTimestamp < ExpectedDaaWindowDurationInMilliseconds(p).value)
  {
    match ExpectedDaaWindowDurationInMilliseconds(p)
    case Panic => Panic
    case Done(duration) =>
      if sinkTimestamp + duration >= TWO_64 then Panic else Done(now < sinkTimestamp + duration)
  }

  /** Once the node is not nearly synced, it stays so as the clock advances and the sink
      does not change. */
  lemma NotSyncedStaysNotSynced(p: Params, now: u64, later: u64, sinkTimestamp: u64)
    requires IsNearlySynced(p, now, sinkTimestamp) == Done(false) && now <= later
    ensures IsNearlySynced(p, later, sinkTimestamp) == Done(false)
  {
  }

  /** A sink timestamp no earlier than the clock always counts as nearly synced, provided the
      window has a positive duration. */
  lemma FutureSinkIsNearlySynced(p: Params, now: u64, sinkTimestamp: u64)
    requires IsNearlySynced(p, now, sinkTimestamp).Done? && now <= sinkTimestamp
    requires ExpectedDaaWindowDurationInMilliseconds(p).value > 0
    ensures IsNearlySynced(p, now, sinkTimestamp) == Done(true)
  {
  }

  /** The mainnet values: a 263-block past median time window, a 119-sample sampled window,
      a DAA window of 79,200 seconds, an anticone finalization depth of 102,998 blocks, and
      the easiest target 2^255 - 1. */
  lemma MainnetDerivedValues()
    ensures PastMedianTimeWindowSize(MAINNET_PARAMS) == Done(263)
    ensures PastMedianTimeSampleWindowSize(MAINNET_PARAMS) == Done(119)
    ensures ExpectedDaaWindowDurationInMilliseconds(MAINNET_PARAMS) == Done(79_200_000)
    ensures AnticoneFinalizationDepth(MAINNET_PARAMS) == Done(102_998)
    ensures Uint256Value(MAINNET_PARAMS.maxDifficulty) == TWO_256 / 2 - 1
  {
    DifficultyMaxValue();
  }
}
