/**
  The checks and the arithmetic that both loaders (`_WavLibLoadData`,
  `LoadWaveData`) and both header conversions perform on the raw header:
  the sample count, the bytes per frame, the three checks in their fixed
  order, and the number of bytes read into the sample buffer.

  C's usual arithmetic conversions are written out: `Channels * BitsPerSample`
  multiplies two uint16_t promoted to int (it overflows only when the product
  reaches 2^31, which the model treats as two's-complement wrap-around);
  `8 * DataSize` is uint32_t and wraps; a division with one unsigned operand
  converts the other to unsigned.
*/
module Sizing {
  import opened Bytes
  import opened Stdio
  import opened Riff

  /** The exact product Channels * BitsPerSample; its uint32_t conversion is the divisor of the sample count. */
  function ChannelBits(h: WaveHeader): nat
  {
    h.channels * h.bitsPerSample
  }

  /**
    The product of two uint16_t is below 2^32, so converting its int value
    back to uint32_t gives the exact product.
  */
  lemma ChannelBitsAsUnsigned(h: WaveHeader)
    ensures ChannelBits(h) < TWO_32
    ensures Wrap32(ToInt32(ChannelBits(h))) == ChannelBits(h)
  {
    var c, b := h.channels as int, h.bitsPerSample as int;
    assert c * b <= 0xffff * b by { MulMonotone(0xffff, c, b + 1); }
    assert 0xffff * b <= 0xffff * 0xffff;
  }

  /** `(8 * DataSize) / (Channels * BitsPerSample)`: frames in the data chunk. */
  function SampleCountOf(h: WaveHeader): u32
    requires ChannelBits(h) != 0
  {
    Wrap32(8 * h.dataSize) / ChannelBits(h)
  }

  /** `(Channels * BitsPerSample) / 8`: bytes per frame, computed in int. */
  function SampleSizeOf(h: WaveHeader): u32
  {
    Wrap32(TruncDiv(ToInt32(ChannelBits(h)), 8))
  }

  /** `SampleSize * SampleCount` in uint32_t: the bytes read into the sample buffer. */
  function BufferSizeOf(h: WaveHeader): u32
    requires ChannelBits(h) != 0
  {
    Wrap32(SampleSizeOf(h) * SampleCountOf(h))
  }

  /**
    The files the loaders can handle: this holds unless a data chunk is
    reached with Channels * BitsPerSample equal to 0, where the sample count
    would divide by zero.
  */
  predicate Loadable(file: Option<seq<byte>>)
  {
    file.Some? && ScanFile(file.value).found ==> ChannelBits(FixedFields(file.value)) != 0
  }

  predicate SupportedDepth(bits: int)
  {
    bits == 8 || bits == 16 || bits == 32
  }

  /** The outcome of the format checks, before each file maps it to its own error codes. */
  datatype FormatCheck = FormatOk | ChannelSplitMismatch | NotPcm | UnsupportedBitDepth

  /**
    The checks in their fixed order: bytes per frame must split evenly over
    the channels, the format tag must be PCM, the depth must be 8, 16 or 32.
  */
  function CheckFormat(h: WaveHeader): FormatCheck
    requires h.channels != 0
  {
    var bytesInEachChannel := SampleSizeOf(h) / h.channels;
    // the product cannot exceed SampleSize, so its uint32_t value is exact
    if bytesInEachChannel * h.channels != SampleSizeOf(h) then ChannelSplitMismatch
    else if h.formatType != WAVE_FORMAT_PCM then NotPcm
    else if !SupportedDepth(h.bitsPerSample) then UnsupportedBitDepth
    else FormatOk
  }

  /** Below 2^31 the int product does not overflow and SampleSize is the plain quotient. */
  lemma SampleSizeExact(h: WaveHeader)
    requires ChannelBits(h) < TWO_31
    ensures SampleSizeOf(h) == ChannelBits(h) / 8
  {
  }

  /** For 8, 16 and 32 bits a frame is the channels times whole bytes per sample. */
  lemma {:induction false} FrameSizeForSupportedDepth(h: WaveHeader)
    requires SupportedDepth(h.bitsPerSample)
    ensures SampleSizeOf(h) == h.channels * (h.bitsPerSample / 8)
    ensures ChannelBits(h) == 8 * SampleSizeOf(h)
    ensures SampleSizeOf(h) < TWO_32 / 8
  {
    var c := h.channels as int;
    var w := h.bitsPerSample / 8;
    assert ChannelBits(h) == 8 * (c * w);
    assert ChannelBits(h) <= 32 * 0xffff;
    SampleSizeExact(h);
    DivModUnique(ChannelBits(h), 8, c * w, 0);
  }

  /** For 8, 16 and 32 bits the channel-split check always passes. */
  lemma {:induction false} SplitCheckPassesForSupportedDepth(h: WaveHeader)
    requires h.channels != 0 && SupportedDepth(h.bitsPerSample)
    ensures CheckFormat(h) != ChannelSplitMismatch
  {
    var c := h.channels as int;
    var w := h.bitsPerSample / 8;
    FrameSizeForSupportedDepth(h);
    DivModUnique(SampleSizeOf(h), c, w, 0);
  }

  /**
    The checks accept exactly the PCM headers with a depth of 8, 16 or 32
    bits. Each failure has its own cause, tested in order: a split mismatch
    whenever SampleSize leaves a remainder over the channels, whatever the tag
    and depth (which can happen only at other depths); otherwise a tag other
    than PCM; otherwise a depth other than 8, 16 or 32.
  */
  lemma {:induction false} CheckFormatAcceptsExactly(h: WaveHeader)
    requires h.channels != 0
    ensures CheckFormat(h) == FormatOk <==> h.formatType == WAVE_FORMAT_PCM && SupportedDepth(h.bitsPerSample)
    ensures CheckFormat(h) == ChannelSplitMismatch <==> SampleSizeOf(h) % h.channels != 0
    ensures CheckFormat(h) == ChannelSplitMismatch ==> !SupportedDepth(h.bitsPerSample)
    ensures CheckFormat(h) == NotPcm <==> SampleSizeOf(h) % h.channels == 0 && h.formatType != WAVE_FORMAT_PCM
    ensures CheckFormat(h) == UnsupportedBitDepth <==>
      SampleSizeOf(h) % h.channels == 0 && h.formatType == WAVE_FORMAT_PCM && !SupportedDepth(h.bitsPerSample)
  {
    var s, n := SampleSizeOf(h) as int, h.channels as int;
    assert s == (s / n) * n + s % n;
    if SupportedDepth(h.bitsPerSample) {
      SplitCheckPassesForSupportedDepth(h);
    }
  }

  /** Floor division by a positive k brackets x between two multiples of k. */
  lemma DivBounds(x: nat, k: int)
    requires k > 0
    ensures k * (x / k) <= x < k * (x / k) + k
  {
  }

  /** Whole frames of ss bytes taken from x bits fit in x / 8 bytes. */
  lemma {:induction false} WholeFramesFit(x: nat, ss: int)
    requires ss >= 1
    ensures ss * (x / (8 * ss)) <= x / 8
  {
    var n := x / (8 * ss);
    DivBounds(x, 8 * ss);
    DivBounds(x, 8);
    assert 8 * (ss * n) <= x;
    assert 8 * (x / 8) <= x < 8 * (x / 8) + 8;
  }

  /** Whole frames miss less than one frame of the x / 8 bytes. */
  lemma {:induction false} WholeFramesMissLessThanAFrame(x: nat, ss: int)
    requires ss >= 1
    ensures x / 8 - ss < ss * (x / (8 * ss))
  {
    var n := x / (8 * ss);
    DivBounds(x, 8 * ss);
    DivBounds(x, 8);
    assert x < 8 * (ss * n) + 8 * ss;
    assert 8 * (x / 8) <= x;
  }

  lemma DivNonNegative(x: nat, k: int)
    requires k >= 1
    ensures x / k >= 0
  {
  }

  lemma MulNonNegative(n: int, k: int)
    requires n >= 0 && k >= 1
    ensures k * n >= 0
  {
  }

  /** The arithmetic of BufferSizeOnSuccess, for n frames of ss bytes. */
  lemma {:induction false} FrameArith(x: nat, ss: int, n: int)
    requires ss >= 1 && n == x / (8 * ss)
    ensures 0 <= ss * n <= x / 8
  {
    assert n >= 0 by { DivNonNegative(x, 8 * ss); }
    assert ss * n >= 0 by { MulNonNegative(n, ss); }
    assert ss * n <= x / 8 by { WholeFramesFit(x, ss); }
  }

  /**
    On an accepted header the buffer size does not wrap, equals the sample
    count times the channels times the bytes per sample, and never exceeds
    the wrapped 8 * DataSize over 8.
  */
  lemma {:induction false} BufferSizeOnSuccess(h: WaveHeader)
    requires h.channels != 0 && CheckFormat(h) == FormatOk
    ensures ChannelBits(h) != 0
    ensures BufferSizeOf(h) == SampleSizeOf(h) * SampleCountOf(h)
    ensures BufferSizeOf(h) == SampleCountOf(h) * h.channels * (h.bitsPerSample / 8)
    ensures BufferSizeOf(h) <= Wrap32(8 * h.dataSize) / 8
  {
    var ss: int, n: int, x: nat := SampleSizeOf(h), SampleCountOf(h), Wrap32(8 * h.dataSize);
    var c: int, w: int := h.channels, h.bitsPerSample / 8;
    assert SupportedDepth(h.bitsPerSample) by { CheckFormatAcceptsExactly(h); }
    assert ss == c * w && ChannelBits(h) == 8 * ss by { FrameSizeForSupportedDepth(h); }
    assert n == x / (8 * ss);
    assert 0 <= ss * n <= x / 8 && ss * n == n * c * w by { FramesInBuffer(x, c, w, ss, n); }
    assert BufferSizeOf(h) == ss * n;
  }

  /** The arithmetic of BufferSizeOnSuccess: n frames of c * w bytes taken from x bits. */
  lemma FramesInBuffer(x: nat, c: int, w: int, ss: int, n: int)
    requires c >= 1 && w >= 1 && ss == c * w && n == x / (8 * ss)
    ensures 0 <= ss * n <= x / 8 && ss * n == n * c * w
  {
    assert ss >= 1 by { MulAtLeast(c, w); }
    FrameArith(x, ss, n);
    assert n * c * w == n * (c * w);
  }

  /**
    When 8 * DataSize does not wrap, the buffer holds the whole frames of the
    data chunk: at most DataSize bytes, and fewer than one frame less.
  */
  lemma {:induction false} BufferSizeWithoutWrap(h: WaveHeader)
    requires h.channels != 0 && CheckFormat(h) == FormatOk
    requires h.dataSize < TWO_32 / 8
    ensures BufferSizeOf(h) <= h.dataSize
    ensures h.dataSize - SampleSizeOf(h) < BufferSizeOf(h)
  {
    var ss: int, d: nat := SampleSizeOf(h), h.dataSize;
    var n := SampleCountOf(h);
    assert BufferSizeOf(h) == ss * n by { BufferSizeOnSuccess(h); }
    assert ss >= 1 && ChannelBits(h) == 8 * ss by { FrameSizeForSupportedDepth(h); CheckFormatAcceptsExactly(h); }
    assert n == (8 * d) / (8 * ss) by { assert Wrap32(8 * d) == 8 * d; }
    WholeFramesOfBytes(d, ss, n);
  }

  /** n whole frames of ss bytes taken from the 8 * d bits of d bytes: at most d bytes, less than a frame short. */
  lemma WholeFramesOfBytes(d: nat, ss: int, n: int)
    requires ss >= 1 && n == (8 * d) / (8 * ss)
    ensures ss * n <= d && d - ss < ss * n
  {
    assert (8 * d) / 8 == d;
    assert ss * n <= (8 * d) / 8 by { WholeFramesFit(8 * d, ss); }
    assert d - ss < ss * n by { WholeFramesMissLessThanAFrame(8 * d, ss); }
  }

  /** The 32-bit product 8 * DataSize wraps: a 512 MiB data chunk loads no samples at all. */
  lemma DataSizeWrapExample(h: WaveHeader)
    requires h.dataSize == TWO_32 / 8 && ChannelBits(h) != 0
    ensures SampleCountOf(h) == 0 && BufferSizeOf(h) == 0
  {
  }

  /** Three channels of 4 bits: one byte per frame does not split over the channels. */
  lemma ChannelSplitMismatchExample(h: WaveHeader)
    requires h.channels == 3 && h.bitsPerSample == 4
    ensures CheckFormat(h) == ChannelSplitMismatch
  {
    assert ChannelBits(h) == 12;
  }
}
