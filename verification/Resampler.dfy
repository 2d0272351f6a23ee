/** AudioBuffer::normalize_16khz_mono_pcm16 (crates/openwhisper-core/src/audio.rs), with
    exact real arithmetic in place of floating point. */
module Resampler {
  datatype Error = InvalidFormat | IncompleteFrame

  datatype Result<+T> = Ok(value: T) | Err(error: Error)

  const INTERNAL_RATE := 16_000
  const PEAK := 32_767

  function Sum(frame: seq<real>): real {
    if frame == [] then 0.0 else Sum(frame[..|frame| - 1]) + frame[|frame| - 1]
  }

  /** The whole frames; a partial one at the end is left out. */
  function FramesOf(interleaved: seq<real>, channels: nat): seq<seq<real>>
    requires channels > 0
    decreases |interleaved|
  {
    if |interleaved| < channels then [] else [interleaved[..channels]] + FramesOf(interleaved[channels..], channels)
  }

  function Mean(frame: seq<real>): real
    requires frame != []
  {
    Sum(frame) / |frame| as real
  }

  lemma {:induction false} FramesAreWhole(interleaved: seq<real>, channels: nat)
    requires channels > 0
    ensures forall k | 0 <= k < |FramesOf(interleaved, channels)| :: |FramesOf(interleaved, channels)[k]| == channels
    decreases |interleaved|
  {
    if |interleaved| >= channels {
      FramesAreWhole(interleaved[channels..], channels);
    }
  }

  function Mono(interleaved: seq<real>, channels: nat): seq<real>
    requires channels > 0
  {
    FramesAreWhole(interleaved, channels);
    var frames := FramesOf(interleaved, channels);
    seq(|frames|, k requires 0 <= k < |frames| => Mean(frames[k]))
  }

  function OutputFrames(frames: nat, rate: nat): nat
    requires rate > 0
  {
    frames * INTERNAL_RATE / rate
  }

  function Source(index: nat, rate: nat): real {
    index as real * (rate as real / INTERNAL_RATE as real)
  }

  function Upper(lower: nat, frames: nat): nat
    requires lower < frames
  {
    if lower + 1 <= frames - 1 then lower + 1 else frames - 1
  }

  /** Linear interpolation between the two neighbours of a source position. */
  function Interpolate(mono: seq<real>, source: real): real
    requires 0.0 <= source && source.Floor < |mono|
  {
    var lower := source.Floor;
    var fraction := source - lower as real;
    mono[lower] * (1.0 - fraction) + mono[Upper(lower, |mono|)] * fraction
  }

  function Clamp(x: real): real {
    if x < -1.0 then -1.0 else if x > 1.0 then 1.0 else x
  }

  /** Halves are rounded away from zero. */
  function Round(x: real): int {
    if x >= 0.0 then (x + 0.5).Floor else -((-x + 0.5).Floor)
  }

  function Quantize(x: real): int {
    Round(Clamp(x) * PEAK as real)
  }

  function Resample(mono: seq<real>, rate: nat): seq<int>
    requires rate > 0
  {
    seq(OutputFrames(|mono|, rate), index requires 0 <= index < OutputFrames(|mono|, rate) =>
      SourceInBounds(|mono|, rate, index);
      Quantize(Interpolate(mono, Source(index, rate))))
  }

  function Normalize(interleaved: seq<real>, rate: nat, channels: nat): Result<seq<int>> {
    if rate == 0 || channels == 0 then Err(InvalidFormat)
    else if |interleaved| % channels != 0 then Err(IncompleteFrame)
    else
      var mono := Mono(interleaved, channels);
      if mono == [] then Ok([]) else Ok(Resample(mono, rate))
  }

  // ---- positions ----

  lemma FloorIs(x: real, k: int)
    requires k as real <= x < k as real + 1.0
    ensures x.Floor == k
  {}

  lemma DivBounds(a: nat, b: nat)
    requires b > 0
    ensures a / b * b <= a < a / b * b + b
  {
    assert a == a / b * b + a % b;
  }

  lemma MulLeft(a: nat, b: nat, k: nat)
    requires a <= b
    ensures a * k <= b * k
  {}

  /** The source position is index * rate / 16000, and its whole part an exact division. */
  lemma SourcePosition(rate: nat, index: nat)
    ensures Source(index, rate) == (index * rate) as real / INTERNAL_RATE as real
    ensures Source(index, rate) >= 0.0
    ensures Source(index, rate).Floor == index * rate / INTERNAL_RATE
  {
    var p := index * rate;
    assert p as real == index as real * rate as real;
    var q := p / INTERNAL_RATE;
    assert q * INTERNAL_RATE <= p < q * INTERNAL_RATE + INTERNAL_RATE;
    FloorIs(Source(index, rate), q);
  }

  /** Every output frame reads inside the input. */
  lemma SourceInBounds(frames: nat, rate: nat, index: nat)
    requires rate > 0 && index < OutputFrames(frames, rate)
    ensures 0.0 <= Source(index, rate) && Source(index, rate).Floor < frames
    ensures Source(index, rate) <= frames as real - Source(1, rate)
  {
    SourcePosition(rate, index);
    SourcePosition(rate, 1);
    var total := frames * INTERNAL_RATE;
    DivBounds(total, rate);
    MulLeft(index + 1, total / rate, rate);
    assert (index + 1) * rate == index * rate + rate;
    assert index * rate + rate <= total;
  }

  // ---- samples ----

  lemma {:induction false} FrameCount(interleaved: seq<real>, channels: nat)
    requires channels > 0
    ensures |FramesOf(interleaved, channels)| == |interleaved| / channels
    decreases |interleaved|
  {
    var n := |interleaved|;
    if n < channels {
      QuotientIs(n, channels, 0);
    } else {
      FrameCount(interleaved[channels..], channels);
      QuotientStep(n, channels);
    }
  }

  lemma MonoLength(interleaved: seq<real>, channels: nat)
    requires channels > 0
    ensures |Mono(interleaved, channels)| == |interleaved| / channels
  {
    FrameCount(interleaved, channels);
  }

  lemma QuotientStep(n: nat, b: nat)
    requires n >= b > 0
    ensures n / b == (n - b) / b + 1
  {
    var q := (n - b) / b;
    DivBounds(n - b, b);
    assert (q + 1) * b == q * b + b;
    QuotientIs(n, b, q + 1);
  }

  lemma QuotientIs(a: nat, b: nat, q: nat)
    requires b > 0 && q * b <= a < q * b + b
    ensures a / b == q
  {
    DivBounds(a, b);
    var p := a / b;
    assert (q + 1) * b == q * b + b && (p + 1) * b == p * b + b;
    if q < p {
      MulLeft(q + 1, p, b);
    } else if q > p {
      MulLeft(p + 1, q, b);
    }
  }

  /** Where the k-th frame starts. */
  function FrameStart(k: nat, channels: nat): nat {
    if k == 0 then 0 else channels + FrameStart(k - 1, channels)
  }

  lemma {:induction false} FrameStartIs(k: nat, channels: nat)
    ensures FrameStart(k, channels) == k * channels
  {
    if k > 0 {
      FrameStartIs(k - 1, channels);
      assert k * channels == (k - 1) * channels + channels;
    }
  }

  lemma {:induction false} FrameAt(interleaved: seq<real>, channels: nat, k: nat, start: nat)
    requires channels > 0 && start == FrameStart(k, channels) && start + channels <= |interleaved|
    ensures k < |FramesOf(interleaved, channels)|
    ensures FramesOf(interleaved, channels)[k] == interleaved[start..start + channels]
    decreases k
  {
    if k > 0 {
      FrameAt(interleaved[channels..], channels, k - 1, start - channels);
    }
  }

  /** The k-th mono sample is the mean of the k-th frame. */
  lemma MonoAt(interleaved: seq<real>, channels: nat, k: nat, start: nat)
    requires channels > 0 && start == k * channels && start + channels <= |interleaved|
    ensures k < |Mono(interleaved, channels)|
    ensures Mono(interleaved, channels)[k] == Mean(interleaved[start..start + channels])
  {
    FrameStartIs(k, channels);
    FrameAt(interleaved, channels, k, start);
  }

  /** A weighted mean lies between its two values. */
  lemma Between(a: real, b: real, fraction: real)
    requires 0.0 <= fraction <= 1.0
    ensures var x := a * (1.0 - fraction) + b * fraction;
            if a <= b then a <= x <= b else b <= x <= a
  {
    var x := a * (1.0 - fraction) + b * fraction;
    assert x == a + (b - a) * fraction == b + (a - b) * (1.0 - fraction);
    if a <= b {
      ProductNonNegative(b - a, fraction);
      ProductNonNegative(b - a, 1.0 - fraction);
      assert (a - b) * (1.0 - fraction) == -((b - a) * (1.0 - fraction));
    } else {
      ProductNonNegative(a - b, fraction);
      ProductNonNegative(a - b, 1.0 - fraction);
      assert (b - a) * fraction == -((a - b) * fraction);
    }
  }

  lemma ProductNonNegative(x: real, y: real)
    requires x >= 0.0 && y >= 0.0
    ensures x * y >= 0.0
  {}

  /** Every sample, before clamping, lies between its two neighbours in the input. */
  lemma InterpolatesBetweenNeighbours(mono: seq<real>, source: real)
    requires 0.0 <= source && source.Floor < |mono|
    ensures var a, b := mono[source.Floor], mono[Upper(source.Floor, |mono|)];
            var x := Interpolate(mono, source);
            if a <= b then a <= x <= b else b <= x <= a
  {
    var lower := source.Floor;
    Between(mono[lower], mono[Upper(lower, |mono|)], source - lower as real);
  }

  lemma RoundUpwards(x: real)
    requires x >= 0.0
    ensures -0.5 <= x - Round(x) as real <= 0.5
  {}

  lemma RoundDownwards(x: real)
    requires x > 0.0
    ensures Round(-x) == -Round(x)
  {
    assert -(-x) == x;
  }

  lemma RoundNearest(x: real)
    ensures -0.5 <= x - Round(x) as real <= 0.5
    ensures Round(-x) == -Round(x)
  {
    if x > 0.0 {
      RoundUpwards(x);
      RoundDownwards(x);
    } else if x < 0.0 {
      RoundUpwards(-x);
      RoundDownwards(-x);
      assert -(-x) == x;
    }
  }

  lemma RoundMonotone(x: real, y: real)
    requires x <= y
    ensures Round(x) <= Round(y)
  {
    if x < 0.0 <= y {
      assert (-x + 0.5).Floor >= 0 && (y + 0.5).Floor >= 0;
    }
  }

  /** Quantisation is monotone, odd, within the signed peak, and exact on PCM values. */
  lemma QuantizeSpec(x: real, y: real, k: int)
    requires x <= y && -PEAK <= k <= PEAK
    ensures -PEAK <= Quantize(x) <= Quantize(y) <= PEAK
    ensures Quantize(-x) == -Quantize(x)
    ensures Quantize(k as real / PEAK as real) == k
  {
    RoundMonotone(-PEAK as real, Clamp(x) * PEAK as real);
    RoundMonotone(Clamp(x) * PEAK as real, Clamp(y) * PEAK as real);
    RoundMonotone(Clamp(y) * PEAK as real, PEAK as real);
    assert Round(PEAK as real) == PEAK && Round(-PEAK as real) == -PEAK;
    assert Clamp(-x) * PEAK as real == -(Clamp(x) * PEAK as real);
    RoundNearest(Clamp(x) * PEAK as real);
    var v := k as real / PEAK as real;
    assert -1.0 <= v <= 1.0 && v * PEAK as real == k as real;
    assert Round(k as real) == k;
  }

  // ---- the whole conversion ----

  /** For every rate, channel count and input: exactly the malformed formats are refused;
      otherwise the output has floor(frames * 16000 / rate) samples within the signed peak,
      each between the quantised values of the two input frames around it. */
  lemma NormalizeIsBounded(interleaved: seq<real>, rate: nat, channels: nat)
    ensures var r := Normalize(interleaved, rate, channels);
            && (r == Err(InvalidFormat) <==> rate == 0 || channels == 0)
            && (r == Err(IncompleteFrame) <==> rate > 0 && channels > 0 && |interleaved| % channels != 0)
            && (r.Ok? ==>
                  var mono := Mono(interleaved, channels);
                  && |r.value| == OutputFrames(|interleaved| / channels, rate)
                  && forall i | 0 <= i < |r.value| :: SampleBetween(mono, rate, i, r.value[i]))
  {
    if rate > 0 && channels > 0 && |interleaved| % channels == 0 {
      var mono := Mono(interleaved, channels);
      MonoLength(interleaved, channels);
      forall i | 0 <= i < OutputFrames(|mono|, rate)
        ensures SampleBetween(mono, rate, i, Resample(mono, rate)[i])
      {
        SampleIsBetween(mono, rate, i);
      }
      assert OutputFrames(0, rate) == 0;
    }
  }

  ghost predicate SampleBetween(mono: seq<real>, rate: nat, index: nat, sample: int) {
    var lower := index * rate / INTERNAL_RATE;
    && lower < |mono|
    && -PEAK <= sample <= PEAK
    && var a, b := Quantize(mono[lower]), Quantize(mono[Upper(lower, |mono|)]);
       if a <= b then a <= sample <= b else b <= sample <= a
  }

  lemma SampleIsBetween(mono: seq<real>, rate: nat, index: nat)
    requires rate > 0 && index < OutputFrames(|mono|, rate)
    ensures SampleBetween(mono, rate, index, Resample(mono, rate)[index])
  {
    SourceInBounds(|mono|, rate, index);
    SourcePosition(rate, index);
    var source := Source(index, rate);
    InterpolatesBetweenNeighbours(mono, source);
    var a, b, x := mono[source.Floor], mono[Upper(source.Floor, |mono|)], Interpolate(mono, source);
    if a <= b {
      QuantizeSpec(a, x, 0);
      QuantizeSpec(x, b, 0);
    } else {
      QuantizeSpec(b, x, 0);
      QuantizeSpec(x, a, 0);
    }
  }

  /** An output position that falls on an input frame takes that frame as it is. */
  lemma ExactPositionsAreKept(mono: seq<real>, rate: nat, index: nat, k: nat)
    requires rate > 0 && index < OutputFrames(|mono|, rate)
    requires index * rate == k * INTERNAL_RATE
    ensures k < |mono| && Resample(mono, rate)[index] == Quantize(mono[k])
  {
    SourceInBounds(|mono|, rate, index);
    SourcePosition(rate, index);
    assert Source(index, rate) == k as real;
    InterpolateAtFrame(mono, k);
  }

  lemma InterpolateAtFrame(mono: seq<real>, k: nat)
    requires k < |mono|
    ensures Interpolate(mono, k as real) == mono[k]
  {
    FloorIs(k as real, k);
  }

  /** When the rate is a multiple of 16 kHz, every output sample is an input frame, clamped
      and rounded: the frames at multiples of the factor. */
  lemma WholeFactorPicksFrames(mono: seq<real>, factor: nat, index: nat)
    requires factor > 0 && index < OutputFrames(|mono|, factor * INTERNAL_RATE)
    ensures index * factor < |mono|
    ensures Resample(mono, factor * INTERNAL_RATE)[index] == Quantize(mono[index * factor])
  {
    ExactPositionsAreKept(mono, factor * INTERNAL_RATE, index, index * factor);
  }

  lemma MeanOfOne(x: real)
    ensures Mean([x]) == x
  {
    assert [x][..0] == [];
    assert Sum([x]) == Sum([]) + x == x;
    assert x / 1.0 == x;
  }

  lemma MonoOfMono(samples: seq<real>)
    ensures Mono(samples, 1) == samples
  {
    var mono := Mono(samples, 1);
    MonoLength(samples, 1);
    QuotientIs(|samples|, 1, |samples|);
    forall k | 0 <= k < |samples| ensures mono[k] == samples[k] {
      MonoAt(samples, 1, k, k);
      MeanOfOne(samples[k]);
      assert samples[k..k + 1] == [samples[k]];
    }
    assert mono == samples;
  }

  /** Audio already at 16 kHz in one channel is only clamped and rounded. */
  lemma InternalFormatIsKept(samples: seq<real>)
    ensures var r := Normalize(samples, INTERNAL_RATE, 1);
            && r.Ok? && |r.value| == |samples|
            && forall i | 0 <= i < |samples| :: r.value[i] == Quantize(samples[i])
  {
    MonoOfMono(samples);
    NormalizeIsBounded(samples, INTERNAL_RATE, 1);
    forall i | 0 <= i < |samples|
      ensures Resample(samples, INTERNAL_RATE)[i] == Quantize(samples[i])
    {
      WholeFactorPicksFrames(samples, 1, i);
    }
  }

  ghost predicate IsLine(mono: seq<real>, base: real, slope: real) {
    forall k | 0 <= k < |mono| :: mono[k] == base + slope * k as real
  }

  /** A straight line is reproduced exactly, at every rate, up to the last input frame. */
  lemma {:induction false} LinesAreReproduced(mono: seq<real>, rate: nat, index: nat, source: real, base: real, slope: real)
    requires rate > 0 && index < OutputFrames(|mono|, rate) && source == Source(index, rate)
    requires IsLine(mono, base, slope) && source <= (|mono| - 1) as real
    ensures Resample(mono, rate)[index] == Quantize(base + slope * source)
  {
    SourceInBounds(|mono|, rate, index);
    LineAt(mono, source, base, slope);
    ResampleAt(mono, rate, index, base + slope * source);
  }

  lemma ResampleAt(mono: seq<real>, rate: nat, index: nat, x: real)
    requires rate > 0 && index < OutputFrames(|mono|, rate)
    requires 0.0 <= Source(index, rate) && Source(index, rate).Floor < |mono|
    requires Interpolate(mono, Source(index, rate)) == x
    ensures Resample(mono, rate)[index] == Quantize(x)
  {}

  lemma LineAt(mono: seq<real>, source: real, base: real, slope: real)
    requires 0.0 <= source <= (|mono| - 1) as real && IsLine(mono, base, slope)
    ensures source.Floor < |mono| && Interpolate(mono, source) == base + slope * source
  {
    var lower := source.Floor;
    var fraction := source - lower as real;
    if lower + 1 < |mono| {
      assert mono[lower + 1] == base + slope * (lower as real + 1.0);
    } else {
      assert fraction == 0.0;
      InterpolateAtFrame(mono, lower);
    }
  }

  // ---- what the parts come to ----

  /** The sum of a frame may be taken in any grouping. */
  lemma {:induction false} SumAppend(a: seq<real>, b: seq<real>)
    ensures Sum(a + b) == Sum(a) + Sum(b)
  {
    if b == [] {
      assert a + b == a;
    } else {
      var init := b[..|b| - 1];
      assert (a + b)[..|a + b| - 1] == a + init;
      SumAppend(a, init);
    }
  }

  lemma {:induction false} SumBounds(frame: seq<real>, low: real, high: real)
    requires forall i | 0 <= i < |frame| :: low <= frame[i] <= high
    ensures low * |frame| as real <= Sum(frame) <= high * |frame| as real
  {
    if frame != [] {
      SumBounds(frame[..|frame| - 1], low, high);
      assert low * |frame| as real == low * (|frame| - 1) as real + low;
      assert high * |frame| as real == high * (|frame| - 1) as real + high;
    }
  }

  lemma Distribute(x: real, y: real, m: real)
    ensures (x - y) * m == x * m - y * m
  {}

  lemma CancelFactor(x: real, y: real, m: real)
    requires m > 0.0 && x * m <= y * m
    ensures x <= y
  {
    if y < x {
      Distribute(x, y, m);
    }
  }

  lemma QuotientBetween(quotient: real, m: real, total: real, low: real, high: real)
    requires m > 0.0 && quotient * m == total && low * m <= total <= high * m
    ensures low <= quotient <= high
  {
    CancelFactor(low, quotient, m);
    CancelFactor(quotient, high, m);
  }

  lemma MeanTimesSize(frame: seq<real>)
    requires frame != []
    ensures Mean(frame) * |frame| as real == Sum(frame)
  {}

  /** The mean of a frame times its size is its sum, and the mean lies between any bounds of
      the channels. */
  lemma MeanSpec(frame: seq<real>, low: real, high: real)
    requires frame != [] && forall i | 0 <= i < |frame| :: low <= frame[i] <= high
    ensures Mean(frame) * |frame| as real == Sum(frame)
    ensures low <= Mean(frame) <= high
  {
    MeanTimesSize(frame);
    SumBounds(frame, low, high);
    QuotientBetween(Mean(frame), |frame| as real, Sum(frame), low, high);
  }

  /** As many output samples as fit into the duration of the input. */
  lemma OutputFits(frames: nat, rate: nat)
    requires rate > 0
    ensures var n := OutputFrames(frames, rate); n * rate <= frames * 16_000 < (n + 1) * rate
  {
    DivBounds(frames * INTERNAL_RATE, rate);
    var n := OutputFrames(frames, rate);
    assert (n + 1) * rate == n * rate + rate;
  }

  /** Quantisation takes the nearest PCM value, halves away from zero, and clamps at the peak. */
  lemma QuantizeNearest(x: real, k: nat)
    requires k < 32_767
    ensures -1.0 <= x <= 1.0 ==> -0.5 <= x * 32_767.0 - Quantize(x) as real <= 0.5
    ensures x >= 1.0 ==> Quantize(x) == 32_767
    ensures x <= -1.0 ==> Quantize(x) == -32_767
    ensures Quantize((k as real + 0.5) / 32_767.0) == k + 1
  {
    RoundNearest(Clamp(x) * PEAK as real);
    var v := (k as real + 0.5) / 32_767.0;
    assert v * 32_767.0 == k as real + 0.5 && 0.0 <= v <= 1.0;
    assert Round(k as real + 0.5) == k + 1;
  }

  /** Part of the way from a to b. */
  function Toward(a: real, b: real, fraction: real): real {
    a + (b - a) * fraction
  }

  /** The frame after this one; after the last frame, that one again. */
  function NextFrame(mono: seq<real>, lower: nat): real
    requires lower < |mono|
  {
    if lower + 1 < |mono| then mono[lower + 1] else mono[lower]
  }

  lemma InterpolateIs(mono: seq<real>, source: real, lower: nat)
    requires source >= 0.0 && source.Floor == lower < |mono|
    ensures Interpolate(mono, source) == Toward(mono[lower], NextFrame(mono, lower), source - lower as real)
  {
    assert mono[Upper(lower, |mono|)] == NextFrame(mono, lower);
  }

  /** Every output sample, in integers: index * rate / 16000 is the frame it starts from, the
      remainder how far it goes towards the next; past the last frame that one is held. */
  lemma SampleIs(mono: seq<real>, rate: nat, index: nat, lower: nat, fraction: real)
    requires rate > 0 && index < OutputFrames(|mono|, rate)
    requires lower == index * rate / 16_000 && fraction == (index * rate % 16_000) as real / 16_000.0
    ensures lower < |mono|
    ensures Resample(mono, rate)[index] == Quantize(Toward(mono[lower], NextFrame(mono, lower), fraction))
  {
    SourceInBounds(|mono|, rate, index);
    InterpolateIs(mono, Source(index, rate), lower);
    ResampleAt(mono, rate, index, Toward(mono[lower], NextFrame(mono, lower), fraction));
  }
}
