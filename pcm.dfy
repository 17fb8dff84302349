/**
  The sample buffer as the two loaders and the downmix see it: a byte buffer
  reinterpreted as little-endian two's-complement samples of 1, 2 or 4 bytes,
  the per-frame channel average written back in the same width, and the
  normalisation of a sample to a fraction of the full scale.
*/
module Pcm {
  import opened Bytes

  /** `n` zero bytes, as `memset` leaves them. */
  function Zeros(n: nat): (z: seq<byte>)
    ensures |z| == n && forall i :: 0 <= i < n ==> z[i] == 0
  {
    seq(n, _ => 0)
  }

  /** The k-th sample of an n-sample buffer ends within the buffer. */
  lemma OffsetInBounds(k: nat, n: nat, w: nat)
    requires k < n
    ensures k * w + w <= n * w
  {
    if w > 0 {
      MulMonotone(n, k + 1, w);
    }
  }

  /** `((const intN_t*)buf)[k]` for N = 8 * w, on a little-endian host. */
  function SampleAt(buf: seq<byte>, w: nat, k: nat): int
    requires w > 0 && k * w + w <= |buf|
  {
    SignedLe(buf[k * w .. k * w + w])
  }

  /** The first n samples of width w. */
  function Samples(buf: seq<byte>, w: nat, n: nat): (xs: seq<int>)
    requires w > 0 && n * w <= |buf|
    ensures |xs| == n
  {
    seq(n, k requires 0 <= k < n => OffsetInBounds(k, n, w); SampleAt(buf, w, k))
  }

  /** Storing the values `ys` one after the other as samples of width w. */
  function Encode(ys: seq<int>, w: nat): (b: seq<byte>)
    ensures |b| == |ys| * w
  {
    if ys == [] then [] else Encode(ys[..|ys| - 1], w) + EncodeSigned(ys[|ys| - 1], w)
  }

  predicate InRange(ys: seq<int>, w: nat)
    requires w > 0
  {
    forall i :: 0 <= i < |ys| ==> -Half(w) <= ys[i] < Half(w)
  }

  /** Every sample read from a buffer fits its width. */
  lemma SamplesInRange(buf: seq<byte>, w: nat, n: nat)
    requires w > 0 && n * w <= |buf|
    ensures InRange(Samples(buf, w, n), w)
  {
    var xs := Samples(buf, w, n);
    forall i | 0 <= i < n
      ensures -Half(w) <= xs[i] < Half(w)
    {
      OffsetInBounds(i, n, w);
      assert |buf[i * w .. i * w + w]| == w;
    }
  }

  /** Reading back stored samples, whatever follows them, gives the stored values. */
  lemma {:induction false} SampleOfEncode(ys: seq<int>, w: nat, rest: seq<byte>, k: nat)
    requires w > 0 && k < |ys| && InRange(ys, w)
    ensures k * w + w <= |Encode(ys, w) + rest|
    ensures SampleAt(Encode(ys, w) + rest, w, k) == ys[k]
  {
    OffsetInBounds(k, |ys|, w);
    var init := ys[..|ys| - 1];
    var last := EncodeSigned(ys[|ys| - 1], w);
    assert Encode(ys, w) + rest == Encode(init, w) + (last + rest);
    if k < |init| {
      SampleOfEncode(init, w, last + rest, k);
    } else {
      var b := Encode(ys, w) + rest;
      assert k * w == |Encode(init, w)|;
      assert b[k * w .. k * w + w] == last;
      SignedRoundTrip(ys[k], w);
    }
  }

  /** Decoding is the inverse of encoding: the first |ys| samples of the buffer are ys. */
  lemma DecodeEncode(ys: seq<int>, w: nat, rest: seq<byte>)
    requires w > 0 && InRange(ys, w)
    ensures |ys| * w <= |Encode(ys, w) + rest|
    ensures Samples(Encode(ys, w) + rest, w, |ys|) == ys
  {
    var xs := Samples(Encode(ys, w) + rest, w, |ys|);
    forall k | 0 <= k < |ys|
      ensures xs[k] == ys[k]
    {
      SampleOfEncode(ys, w, rest, k);
    }
  }

  /** Reference definition of the sum of a sequence of samples. */
  function Sum(xs: seq<int>): int
  {
    if xs == [] then 0 else Sum(xs[..|xs| - 1]) + xs[|xs| - 1]
  }

  /** A sum of n values in lo..hi lies in n * lo .. n * hi. */
  lemma {:induction false} SumBounds(xs: seq<int>, lo: int, hi: int)
    requires forall i :: 0 <= i < |xs| ==> lo <= xs[i] <= hi
    ensures |xs| * lo <= Sum(xs) <= |xs| * hi
  {
    if xs != [] {
      SumBounds(xs[..|xs| - 1], lo, hi);
      assert |xs| * lo == (|xs| - 1) * lo + lo;
      assert |xs| * hi == (|xs| - 1) * hi + hi;
    }
  }

  /** Extending a range of the samples by one adds that sample to its sum. */
  lemma SumExtend(xs: seq<int>, a: nat, b: nat)
    requires a <= b < |xs|
    ensures Sum(xs[a .. b + 1]) == Sum(xs[a .. b]) + xs[b]
  {
    assert xs[a .. b + 1][.. b - a] == xs[a .. b];
  }

  /** The C channels of frame s: `In` advanced by s * C samples. */
  function Frame(xs: seq<int>, c: nat, s: nat): (f: seq<int>)
    requires s * c + c <= |xs|
    ensures |f| == c
  {
    xs[s * c .. s * c + c]
  }

  /**
    The value the downmix stores for one frame. For 16- and 32-bit samples
    the int64 sum divided by the channel count, truncating toward zero. For
    8-bit samples `(int8_t)(sample / ChannelCount)` with an int32 sum and a
    uint32_t count: the sum is converted to uint32_t before the division, and
    the quotient keeps its low byte.
  */
  function MonoSample(frame: seq<int>, w: nat): int
    requires |frame| > 0
  {
    var n := |frame|;
    if w == 1 then
      var b: byte := (Wrap32(Sum(frame)) / n) % 256;
      SignedLe([b])
    else TruncDiv(Sum(frame), n)
  }

  /** The first S frames of c channels each, downmixed. */
  function Mono(xs: seq<int>, c: nat, s: nat, w: nat): (ys: seq<int>)
    requires c > 0 && s * c <= |xs|
    ensures |ys| == s
  {
    seq(s, k requires 0 <= k < s => OffsetInBounds(k, s, c); MonoSample(Frame(xs, c, k), w))
  }

  /** The first s samples of the w * s * c bytes of s frames. */
  lemma FramePrefixFits(w: nat, s: nat, c: nat)
    requires c > 0
    ensures s * w <= w * s * c && s * c * w == w * s * c
  {
    if s * w > 0 {
      MulMonotone(c, 1, s * w);
    }
  }

  predicate SupportedWidth(w: nat)
  {
    w == 1 || w == 2 || w == 4
  }

  /**
    The buffer `_WavLibCombineChannels` returns: `w * S * C` bytes, zeroed,
    of which the first S samples hold the downmixed frames (nothing is
    written for a width other than 1, 2 or 4).
  */
  function CombinedBuffer(input: seq<byte>, w: nat, s: nat, c: nat): (out: seq<byte>)
    requires c > 0
    requires SupportedWidth(w) ==> s * c * w <= |input|
    ensures |out| == w * s * c
  {
    if SupportedWidth(w) then
      FramePrefixFits(w, s, c);
      Encode(Mono(Samples(input, w, s * c), c, s, w), w) + Zeros(w * s * c - s * w)
    else Zeros(w * s * c)
  }

  /** Truncating or floor division by n of a value in n * lo .. n * hi lies in lo .. hi. */
  lemma FloorDivBetween(a: int, n: int, lo: int, hi: int)
    requires n > 0 && n * lo <= a <= n * hi
    ensures lo <= a / n <= hi
  {
    var q, r := a / n, a % n;
    assert a == q * n + r && 0 <= r < n;
    if q > hi {
      MulMonotone(q, hi + 1, n);
      assert false;
    }
    if q < lo {
      MulMonotone(lo, q + 1, n);
      assert false;
    }
  }

  lemma TruncDivBetween(a: int, n: int, lo: int, hi: int)
    requires n > 0 && n * lo <= a <= n * hi
    ensures lo <= TruncDiv(a, n) <= hi
  {
    if a < 0 {
      FloorDivBetween(-a, n, -hi, -lo);
    } else {
      FloorDivBetween(a, n, lo, hi);
    }
  }

  /**
    For 16- and 32-bit samples the downmixed value lies within any bounds
    that hold for every channel of the frame, in particular between the
    frame's minimum and maximum.
  */
  lemma MonoBetween(frame: seq<int>, w: nat, lo: int, hi: int)
    requires w != 1 && |frame| > 0
    requires forall i :: 0 <= i < |frame| ==> lo <= frame[i] <= hi
    ensures lo <= MonoSample(frame, w) <= hi
  {
    SumBounds(frame, lo, hi);
    TruncDivBetween(Sum(frame), |frame|, lo, hi);
  }

  /** For 16- and 32-bit samples a frame whose channels all hold v downmixes to v. */
  lemma MonoOfEqualFrame(frame: seq<int>, w: nat, v: int)
    requires w != 1 && |frame| > 0
    requires forall i :: 0 <= i < |frame| ==> frame[i] == v
    ensures MonoSample(frame, w) == v
  {
    MonoBetween(frame, w, v, v);
  }

  /**
    For 8-bit samples the stored value is the average of the frame only when
    the channel sum is not negative.
  */
  lemma MonoEightBitNonNegative(frame: seq<int>)
    requires 0 < |frame| < 0x1_0000 && InRange(frame, 1)
    requires Sum(frame) >= 0
    ensures MonoSample(frame, 1) == Sum(frame) / |frame|
    ensures MonoSample(frame, 1) == TruncDiv(Sum(frame), |frame|)
  {
    var n := |frame|;
    var sum := Sum(frame);
    assert sum <= n * 127 by {
      assert Half(1) == 128;
      SumBounds(frame, -128, 127);
    }
    assert Wrap32(sum) == sum by {
      assert n * 127 < TWO_32;
    }
    assert 0 <= sum / n <= 127 by {
      FloorDivBetween(sum, n, 0, 127);
    }
    var b: byte := (sum / n) % 256;
    assert b == sum / n;
    assert LeValue([b]) == b by { assert [b][1..] == []; }
  }

  /**
    A 16-bit frame of -1 and -2 downmixes to -1: the int64_t sum -3 divided
    by 2 truncates toward zero, where a floor division would give -2.
  */
  lemma MonoTruncatesExample()
    ensures MonoSample([-1, -2], 2) == -1
    ensures Sum([-1, -2]) / 2 == -2
  {
    var frame := [-1, -2];
    assert frame[..1] == [-1] && [-1][..0] == [];
    assert Sum(frame) == -3;
  }

  /**
    Three channels of -3 downmix to 82, not -3: the negative int32 sum -9 is
    converted to the uint32_t 4294967287 before the division by the channel
    count.
  */
  lemma MonoEightBitNegativeSumExample()
    ensures MonoSample([-3, -3, -3], 1) == 82
  {
    var frame := [-3, -3, -3];
    assert frame[..2] == [-3, -3] && [-3, -3][..1] == [-3] && [-3][..0] == [];
    assert Sum(frame) == -9;
    assert Wrap32(-9) == 4294967287;
    assert 4294967287 / 3 == 1431655762;
    assert 1431655762 % 256 == 82;
    var b: byte := 82;
    assert LeValue([b]) == 82 by { assert [b][1..] == []; }
  }

  /**
    The channel sums fit the source's accumulators: an int32_t for 8-bit
    samples and an int64_t for 16- and 32-bit samples, for up to 65535
    channels of in-range samples.
  */
  lemma FrameSumFits(frame: seq<int>, w: nat)
    requires SupportedWidth(w) && |frame| < 0x1_0000 && InRange(frame, w)
    ensures w == 1 ==> -TWO_31 <= Sum(frame) < TWO_31
    ensures -0x8000_0000_0000_0000 <= Sum(frame) < 0x8000_0000_0000_0000
  {
    var n := |frame|;
    var h := Half(w);
    assert h <= TWO_31 by {
      assert Pow256(1) == 256 && Pow256(2) == 65536 && Pow256(3) == 16777216;
    }
    assert w == 1 ==> h == 128;
    SumBounds(frame, -h, h - 1);
    assert n * h <= 0xffff * h by { MulMonotone(0xffff, n, h); }
    assert 0xffff * h <= 0xffff * TWO_31;
    assert n * (-h) == -(n * h);
    assert n * (h - 1) <= n * h;
  }

  /** The downmixed buffer holds the downmixed frames, then zeros. */
  lemma CombinedBufferHoldsMono(input: seq<byte>, w: nat, s: nat, c: nat)
    requires c > 0 && c < 0x1_0000 && SupportedWidth(w) && s * c * w <= |input|
    ensures s * w <= |CombinedBuffer(input, w, s, c)|
    ensures Samples(CombinedBuffer(input, w, s, c), w, s) == Mono(Samples(input, w, s * c), c, s, w)
    ensures forall j :: s * w <= j < w * s * c ==> CombinedBuffer(input, w, s, c)[j] == 0
  {
    var xs := Samples(input, w, s * c);
    var ys := Mono(xs, c, s, w);
    FramePrefixFits(w, s, c);
    SamplesInRange(input, w, s * c);
    forall k | 0 <= k < s
      ensures -Half(w) <= ys[k] < Half(w)
    {
      OffsetInBounds(k, s, c);
      var f := Frame(xs, c, k);
      if w == 1 {
        var b: byte := (Wrap32(Sum(f)) / c) % 256;
        assert |[b]| == 1;
      } else {
        MonoBetween(f, w, -Half(w), Half(w) - 1);
      }
    }
    DecodeEncode(ys, w, Zeros(w * s * c - s * w));
  }

  // ---------------------------------------------------------------------
  // Normalisation to floating point

  /** The full scale of a sample depth: 128, 32768 or 2^31. */
  function FullScale(bits: nat): (d: real)
    requires bits == 8 || bits == 16 || bits == 32
    ensures d > 0.0
  {
    if bits == 8 then 128.0 else if bits == 16 then 32768.0 else 2147483648.0
  }

  /** `(float)x / 128.0f`, `/ 32768.0f` or `/ 2147483648.0f`, in exact arithmetic. */
  function Normalized(x: int, bits: nat): real
    requires bits == 8 || bits == 16 || bits == 32
  {
    x as real / FullScale(bits)
  }

  /** The full scale is half the range of the sample width. */
  lemma FullScaleIsHalf(bits: nat)
    requires bits == 8 || bits == 16 || bits == 32
    ensures FullScale(bits) == Half(bits / 8) as real
  {
    assert Pow256(1) == 256 && Pow256(2) == 65536 && Pow256(3) == 16777216;
  }

  /** Every in-range sample normalises into -1 .. 1, with -1 reached by the smallest sample. */
  lemma NormalizedRange(x: int, bits: nat)
    requires bits == 8 || bits == 16 || bits == 32
    requires -Half(bits / 8) <= x < Half(bits / 8)
    ensures -1.0 <= Normalized(x, bits) < 1.0
    ensures Normalized(x, bits) == -1.0 <==> x == -Half(bits / 8)
  {
    FullScaleIsHalf(bits);
    var d := FullScale(bits);
    assert -d <= x as real < d;
  }

  /** The normalised first n samples of width bits / 8. */
  function FloatSamples(buf: seq<byte>, bits: nat, n: nat): (fs: seq<real>)
    requires bits == 8 || bits == 16 || bits == 32
    requires n * (bits / 8) <= |buf|
    ensures |fs| == n
  {
    var xs := Samples(buf, bits / 8, n);
    seq(n, k requires 0 <= k < n => Normalized(xs[k], bits))
  }

  /** Every normalised sample lies in -1 .. 1. */
  lemma FloatSamplesInRange(buf: seq<byte>, bits: nat, n: nat)
    requires bits == 8 || bits == 16 || bits == 32
    requires n * (bits / 8) <= |buf|
    ensures forall k :: 0 <= k < n ==> -1.0 <= FloatSamples(buf, bits, n)[k] < 1.0
  {
    var xs := Samples(buf, bits / 8, n);
    SamplesInRange(buf, bits / 8, n);
    forall k | 0 <= k < n
      ensures -1.0 <= FloatSamples(buf, bits, n)[k] < 1.0
    {
      NormalizedRange(xs[k], bits);
    }
  }

  /** An 8-bit sample is its byte read as two's complement. */
  lemma ByteSample(buf: seq<byte>, k: nat)
    requires k < |buf|
    ensures SampleAt(buf, 1, k) == if buf[k] < 128 then buf[k] as int else buf[k] as int - 256
  {
    var b := buf[k .. k + 1];
    assert LeValue(b) == buf[k] by { assert b[1..] == []; }
  }

  /** The 8-bit bytes 0, 64, 128 and 192 normalise to 0, 0.5, -1 and -0.5. */
  lemma FloatSamplesExample()
    ensures FloatSamples([0, 64, 128, 192], 8, 4) == [0.0, 0.5, -1.0, -0.5]
  {
    var buf: seq<byte> := [0, 64, 128, 192];
    ByteSample(buf, 0);
    ByteSample(buf, 1);
    ByteSample(buf, 2);
    ByteSample(buf, 3);
    var xs := Samples(buf, 1, 4);
    assert xs == [0, 64, -128, -64];
    var fs := FloatSamples(buf, 8, 4);
    assert fs == [Normalized(0, 8), Normalized(64, 8), Normalized(-128, 8), Normalized(-64, 8)];
  }

  /**
    The conversion loop: `Begin` walks the n samples of the buffer and
    `OutputIter` the float buffer of n elements.
  */
  method ConvertToFloat(buf: seq<byte>, bits: nat, n: nat) returns (out: seq<real>)
    requires bits == 8 || bits == 16 || bits == 32
    requires n * (bits / 8) <= |buf|
    ensures out == FloatSamples(buf, bits, n)
    ensures forall k :: 0 <= k < n ==> -1.0 <= out[k] < 1.0
  {
    var w := bits / 8;
    var output := new real[n];
    ghost var xs := Samples(buf, w, n);
    var begin := 0;
    while begin != n
      invariant 0 <= begin <= n
      invariant forall k :: 0 <= k < begin ==> output[k] == Normalized(xs[k], bits)
    {
      OffsetInBounds(begin, n, w);
      output[begin] := Normalized(SampleAt(buf, w, begin), bits);
      begin := begin + 1;
    }
    out := output[..];
    FloatSamplesInRange(buf, bits, n);
  }
}
