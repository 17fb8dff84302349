/**
  WavLib.c: `_WavLibLoadData`, `_WavLibLoadFile`, `_WavLibConvertHeader`,
  `_WavLibCombineChannels`, `_WavLibPreProcess` and the two public entry
  points `WavLibLoadFile` and `WavLibLoadFileFloat`.

  A file name is modelled by what `fopen` finds: `None` when the file cannot
  be opened, otherwise its contents. The caller's `WaveFile` record is a
  `WaveFile` object updated in place; the caller's output pointer is an
  in-out `Option` that keeps its old value when nothing is stored in it.
*/
module WavLib {
  import opened Bytes
  import opened Stdio
  import opened Riff
  import opened Sizing
  import opened Pcm

  const WAVE_NO_DATA: int := -4
  const WAVE_FILE_NOT_FOUND: int := -3
  const WAVE_UNSUPPORTED_FORMAT: int := -2
  const WAVE_CORRUPT_FILE: int := -1
  const WAVE_SUCCESS: int := 0

  const WAV_LIB_FLAG_NONE: bv32 := 0
  const WAV_LIB_FLAG_MONO: bv32 := 1

  // ---------------------------------------------------------------------
  // _WavLibLoadData and _WavLibLoadFile

  /**
    The code `_WavLibLoadData` returns for a header whose divisor C * B is not
    zero: corrupt exactly when the bytes of a frame do not split over the
    channels, success exactly for PCM at 8, 16 or 32 bits, and otherwise an
    unsupported format.
  */
  function LoadDataResult(h: WaveHeader): (result: int)
    requires ChannelBits(h) != 0
    ensures h.channels != 0
    ensures result == WAVE_CORRUPT_FILE <==> SampleSizeOf(h) % h.channels != 0
    ensures result == WAVE_SUCCESS <==> h.formatType == WAVE_FORMAT_PCM && SupportedDepth(h.bitsPerSample)
    ensures result == WAVE_UNSUPPORTED_FORMAT <==> !(result == WAVE_CORRUPT_FILE || result == WAVE_SUCCESS)
  {
    CheckFormatAcceptsExactly(h);
    match CheckFormat(h)
    case FormatOk => WAVE_SUCCESS
    case ChannelSplitMismatch => WAVE_CORRUPT_FILE
    case NotPcm => WAVE_UNSUPPORTED_FORMAT
    case UnsupportedBitDepth => WAVE_UNSUPPORTED_FORMAT
  }

  /** What `_WavLibLoadFile` leaves behind: its result, the header it filled and the sample buffer it allocated. */
  datatype RawLoad = RawLoad(result: int, header: WaveHeader, buffer: Option<seq<byte>>)

  /**
    `_WavLibLoadFile`: not found; or the header read, the scan for `data`,
    and on a data chunk the checks and the read of the sample buffer from
    just after the chunk's header. The header is not written when the file
    is missing; `ZeroHeader` stands for it there and no caller reads it.
  */
  function LoadFileSpec(file: Option<seq<byte>>): RawLoad
    requires Loadable(file)
  {
    if file.None? then RawLoad(WAVE_FILE_NOT_FOUND, ZeroHeader, None)
    else
      var c := file.value;
      var r := ScanFile(c);
      var h := ScannedHeader(c);
      if !r.found then RawLoad(WAVE_NO_DATA, h, None)
      else
        var result := LoadDataResult(h);
        RawLoad(result, h, if result == WAVE_SUCCESS then Some(ReadInto(c, r.cur, BufferSizeOf(h))) else None)
  }

  /** `_WavLibLoadData`: the checks in order, then one read of the whole buffer. */
  method LoadData(file: File, h: WaveHeader) returns (result: int, buffer: Option<seq<byte>>)
    requires ChannelBits(h) != 0
    modifies file
    ensures result == LoadDataResult(h)
    ensures buffer == if result == WAVE_SUCCESS then Some(ReadInto(file.contents, old(file.State()), BufferSizeOf(h))) else None
  {
    // Channels * BitsPerSample is an int; as a divisor of a uint32_t it converts back to uint32_t
    var product := ToInt32(h.channels * h.bitsPerSample);
    var divisor: u32 := Wrap32(product);
    assert divisor == ChannelBits(h) by { ChannelBitsAsUnsigned(h); }
    assert 0 <= Wrap32(8 * h.dataSize) / divisor <= Wrap32(8 * h.dataSize) by {
      DivNotLarger(Wrap32(8 * h.dataSize), divisor);
    }
    var sampleCount: u32 := Wrap32(8 * h.dataSize) / divisor;
    var sampleSize: u32 := Wrap32(TruncDiv(product, 8));

    assert 0 <= sampleSize / h.channels <= sampleSize by {
      DivNotLarger(sampleSize, h.channels);
    }
    var bytesInEachChannel: u32 := sampleSize / h.channels;
    if bytesInEachChannel * h.channels != sampleSize {
      return WAVE_CORRUPT_FILE, None;
    }
    if h.formatType != 1 {
      return WAVE_UNSUPPORTED_FORMAT, None;
    }
    if !(h.bitsPerSample == 8 || h.bitsPerSample == 16 || h.bitsPerSample == 32) {
      return WAVE_UNSUPPORTED_FORMAT, None;
    }

    var bufferSize: u32 := Wrap32(sampleSize * sampleCount);
    var got := file.Read(bufferSize);
    buffer := Some(ZeroFill(got, bufferSize));
    result := WAVE_SUCCESS;
  }

  /** `_WavLibLoadFile`: open, read the header, scan the chunks, load the data. */
  method LoadRaw(file: Option<seq<byte>>) returns (r: RawLoad)
    requires Loadable(file)
    ensures r == LoadFileSpec(file)
  {
    if file.None? {
      return RawLoad(WAVE_FILE_NOT_FOUND, ZeroHeader, None);
    }
    var f := new File.Open(file.value);
    var h := ReadHeader(f);
    var found;
    found, h := ScanChunks(f, h);
    if found {
      var result, buffer := LoadData(f, h);
      r := RawLoad(result, h, buffer);
    } else {
      r := RawLoad(WAVE_NO_DATA, h, None);
    }
  }

  /**
    The result codes, each with its cause: a missing file; a scan that ran
    into the end of the file; at a data chunk, a channel split that does not
    divide (tested before anything else); otherwise a format other than PCM
    or a depth other than 8, 16 or 32 bits; and success exactly for PCM at a
    supported depth. Only success comes with a buffer.
  */
  lemma LoadResultCodes(file: Option<seq<byte>>)
    requires Loadable(file)
    ensures var r := LoadFileSpec(file);
      (r.result == WAVE_FILE_NOT_FOUND <==> file.None?) &&
      (r.result == WAVE_NO_DATA <==> file.Some? && !ScanFile(file.value).found) &&
      (r.result == WAVE_NO_DATA ==> ScanFile(file.value).cur.eof) &&
      (r.result == WAVE_SUCCESS <==>
        file.Some? && ScanFile(file.value).found &&
        r.header.formatType == WAVE_FORMAT_PCM && SupportedDepth(r.header.bitsPerSample)) &&
      (r.result == WAVE_CORRUPT_FILE <==>
        file.Some? && ScanFile(file.value).found && SampleSizeOf(r.header) % r.header.channels != 0) &&
      (r.result == WAVE_CORRUPT_FILE ==> file.Some? && !SupportedDepth(r.header.bitsPerSample)) &&
      (r.result == WAVE_UNSUPPORTED_FORMAT <==>
        file.Some? && ScanFile(file.value).found && SampleSizeOf(r.header) % r.header.channels == 0 &&
        !(r.header.formatType == WAVE_FORMAT_PCM && SupportedDepth(r.header.bitsPerSample))) &&
      (r.buffer.Some? <==> r.result == WAVE_SUCCESS) &&
      r.result in {WAVE_NO_DATA, WAVE_FILE_NOT_FOUND, WAVE_UNSUPPORTED_FORMAT, WAVE_CORRUPT_FILE, WAVE_SUCCESS}
  {
    if file.Some? && ScanFile(file.value).found {
      CheckFormatAcceptsExactly(ScannedHeader(file.value));
    }
  }

  /**
    On success the buffer holds SampleSize * SampleCount bytes, whole frames
    of the data chunk and never more than the wrapped 8 * DataSize over 8;
    they are the bytes that follow the chunk header, zero past the end of the
    file.
  */
  lemma LoadedBuffer(c: seq<byte>)
    requires Loadable(Some(c)) && LoadFileSpec(Some(c)).result == WAVE_SUCCESS
    ensures var r := LoadFileSpec(Some(c)); var h := r.header;
      var pos := ScanFile(c).cur.pos;
      r.buffer.Some? && ChannelBits(h) != 0 &&
      |r.buffer.value| == SampleSizeOf(h) * SampleCountOf(h) &&
      |r.buffer.value| == SampleCountOf(h) * h.channels * (h.bitsPerSample / 8) &&
      |r.buffer.value| <= Wrap32(8 * h.dataSize) / 8 &&
      (h.dataSize < TWO_32 / 8 ==> h.dataSize - SampleSizeOf(h) < |r.buffer.value| <= h.dataSize) &&
      (pos + |r.buffer.value| <= |c| ==> r.buffer.value == c[pos .. pos + |r.buffer.value|])
  {
    var r := LoadFileSpec(Some(c));
    var sr := ScanFile(c);
    var h := ScannedHeader(c);
    assert sr.found && r.header == h && h.channels != 0 && CheckFormat(h) == FormatOk &&
      r.buffer == Some(ReadInto(c, sr.cur, BufferSizeOf(h))) by {
      LoadResultCodes(Some(c));
      CheckFormatAcceptsExactly(h);
    }
    var buf := r.buffer.value;
    assert |buf| == BufferSizeOf(h);
    assert sr.cur.pos + |buf| <= |c| ==> buf == c[sr.cur.pos .. sr.cur.pos + |buf|] by {
      if sr.cur.pos + |buf| <= |c| {
        ReadIntoInside(c, sr.cur, |buf|);
      }
    }
    var g := r.header;
    assert g.channels != 0 && CheckFormat(g) == FormatOk && |buf| == BufferSizeOf(g);
    BufferSizeOnSuccess(g);
    if g.dataSize < TWO_32 / 8 {
      BufferSizeWithoutWrap(g);
    }
  }

  /** The checks and the sizes read only the channels, the depth, the format tag and the data size. */
  lemma SameFormatFields(h: WaveHeader, g: WaveHeader)
    requires h.channels == g.channels && h.bitsPerSample == g.bitsPerSample
    requires h.formatType == g.formatType && h.dataSize == g.dataSize
    requires ChannelBits(h) != 0
    ensures ChannelBits(g) == ChannelBits(h)
    ensures LoadDataResult(g) == LoadDataResult(h) && BufferSizeOf(g) == BufferSizeOf(h)
  {
    assert SampleSizeOf(g) == SampleSizeOf(h);
    assert CheckFormat(g) == CheckFormat(h);
  }

  /** A read that starts past the markers, or past the end, sees the same bytes in both files. */
  lemma ReadPastMarkers(c: seq<byte>, d: seq<byte>, cur: Cursor, n: nat)
    requires SameButMarkers(c, d) && (cur.pos >= 16 || cur.pos >= |c|)
    ensures ReadInto(d, cur, n) == ReadInto(c, cur, n)
  {
    var a, b := ReadInto(c, cur, n), ReadInto(d, cur, n);
    forall i | 0 <= i < n
      ensures a[i] == b[i]
    {
      if cur.pos + i < |c| {
        assert a[i] == c[cur.pos + i] && b[i] == d[cur.pos + i];
      }
    }
  }

  /** Files that differ only in their RIFF, WAVE and `fmt ` markers load alike. */
  lemma MarkersDoNotMatter(c: seq<byte>, d: seq<byte>)
    requires SameButMarkers(c, d) && Loadable(Some(c))
    ensures Loadable(Some(d))
    ensures LoadFileSpec(Some(d)).result == LoadFileSpec(Some(c)).result
    ensures LoadFileSpec(Some(d)).buffer == LoadFileSpec(Some(c)).buffer
  {
    MarkersIgnored(c, d);
    var r := ScanFile(c);
    var hc, hd := ScannedHeader(c), ScannedHeader(d);
    assert hd == hc.(riff := Field(d, 0, 4), wave := Field(d, 8, 4), formatChunkMarker := Field(d, 12, 4));
    if r.found {
      SameFormatFields(hc, hd);
      assert r.cur.pos >= HeaderEnd(c).pos;
      assert HeaderEnd(c).pos >= 16 || HeaderEnd(c).pos >= |c|;
      ReadPastMarkers(c, d, r.cur, BufferSizeOf(hc));
    }
  }

  /** With a 64-bit `long` offset, a format length below 16 loses the data chunk of any file below 4 GiB. */
  lemma ShortFormatLengthGivesNoData(c: seq<byte>)
    requires |c| < TWO_32 && FixedFields(c).formatLength < 16
    ensures Loadable(Some(c)) && LoadFileSpec(Some(c)).result == WAVE_NO_DATA
  {
    ShortFormatLengthFindsNoData(c);
  }

  /** A file that ends right after its format chunk, or fewer than 4 bytes later, loads as `WAVE_NO_DATA`. */
  lemma NothingAfterFormatChunkGivesNoData(c: seq<byte>)
    requires |c| < HeaderEnd(c).pos + 4
    ensures Loadable(Some(c)) && LoadFileSpec(Some(c)).result == WAVE_NO_DATA
    ensures LoadFileSpec(Some(c)).buffer == None
  {
    NothingAfterFormatChunk(c);
  }

  // ---------------------------------------------------------------------
  // _WavLibConvertHeader

  /** The fields of a `WaveFile` record, less `Duration`. */
  datatype WaveInfo = WaveInfo(
    sizeInBytes: u32,
    totalSampleCount: u32,
    sampleCount: u32,
    sampleSize: u32,
    sampleRate: u32,
    byteRate: u32,
    bitsPerSample: u32,
    channelCount: u32)

  /**
    `_WavLibConvertHeader`: the sample count is computed as
    `((8 * DataSize) / BitsPerSample) / Channels`, which is the loader's
    `(8 * DataSize) / (Channels * BitsPerSample)`; the sample size is the
    loader's too.
  */
  function ConvertedHeader(h: WaveHeader): (f: WaveInfo)
    requires h.channels != 0 && h.bitsPerSample != 0
    ensures ChannelBits(h) != 0
    ensures f.sampleCount == SampleCountOf(h)
    ensures f.sampleCount == f.totalSampleCount / h.channels
    ensures f.totalSampleCount == Wrap32(8 * h.dataSize) / h.bitsPerSample
    ensures f.sampleSize == SampleSizeOf(h) && f.channelCount == h.channels && f.bitsPerSample == h.bitsPerSample
  {
    var x := Wrap32(8 * h.dataSize);
    assert 0 <= x / h.bitsPerSample <= x by { DivNotLarger(x, h.bitsPerSample); }
    var total: u32 := x / h.bitsPerSample;
    assert 0 <= total / h.channels <= total by { DivNotLarger(total, h.channels); }
    assert total / h.channels == SampleCountOf(h) by {
      DivDiv(x, h.bitsPerSample, h.channels);
      assert h.bitsPerSample * h.channels == ChannelBits(h);
    }
    WaveInfo(
      sizeInBytes := h.dataSize,
      totalSampleCount := total,
      sampleCount := total / h.channels,
      sampleSize := SampleSizeOf(h),
      sampleRate := h.sampleRate,
      byteRate := h.byteRate,
      bitsPerSample := h.bitsPerSample,
      channelCount := h.channels)
  }

  /** On success the loaded buffer holds exactly SampleCount * ChannelCount samples of the depth. */
  lemma ConvertedHeaderDescribesBuffer(c: seq<byte>)
    requires Loadable(Some(c)) && LoadFileSpec(Some(c)).result == WAVE_SUCCESS
    ensures var r := LoadFileSpec(Some(c)); var f := ConvertedHeader(r.header);
      r.buffer.Some? &&
      |r.buffer.value| == f.sampleCount * f.channelCount * (f.bitsPerSample / 8) &&
      |r.buffer.value| == f.sampleSize * f.sampleCount &&
      f.totalSampleCount / f.channelCount == f.sampleCount
  {
    LoadResultCodes(Some(c));
    LoadedBuffer(c);
  }

  // ---------------------------------------------------------------------
  // _WavLibCombineChannels

  /** `*Out = (intN_t)value`: the w bytes at offset o get `bytes`. */
  method Store(out: array<byte>, o: nat, bytes: seq<byte>)
    requires o + |bytes| <= out.Length
    modifies out
    ensures forall j :: 0 <= j < out.Length ==> out[j] == if o <= j < o + |bytes| then bytes[j - o] else old(out[j])
  {
    for k := 0 to |bytes|
      invariant forall j :: 0 <= j < out.Length ==> out[j] == if o <= j < o + k then bytes[j - o] else old(out[j])
    {
      out[o + k] := bytes[k];
    }
  }

  /**
    The inner loop over the channels of one frame: the sum of the C samples
    from sample index `start` on. For 8-bit samples it also performs the
    store `(*Out) += (*In)` into the output byte at o, which the average
    then overwrites.
  */
  method SumFrame(input: seq<byte>, w: nat, ghost n: nat, start: nat, c: nat, out: array<byte>, o: nat)
      returns (sample: int)
    requires w > 0 && n * w <= |input| && start + c <= n && o < out.Length
    modifies out
    ensures sample == Sum(Samples(input, w, n)[start .. start + c])
    ensures forall j :: 0 <= j < out.Length && (w != 1 || j != o) ==> out[j] == old(out[j])
  {
    ghost var xs := Samples(input, w, n);
    sample := 0;
    var inIx := start;
    for k := 0 to c
      invariant inIx == start + k
      invariant sample == Sum(xs[start .. inIx])
      invariant forall j :: 0 <= j < out.Length && (w != 1 || j != o) ==> out[j] == old(out[j])
    {
      OffsetInBounds(inIx, n, w);
      assert sample + SampleAt(input, w, inIx) == Sum(xs[start .. inIx + 1]) by {
        SumExtend(xs, start, inIx);
      }
      sample := sample + SampleAt(input, w, inIx);
      if w == 1 {
        out[o] := (out[o] as int + input[inIx] as int) % 256;
      }
      inIx := inIx + 1;
    }
  }

  /**
    One round of the outer loop: the frame of C samples from sample index
    `inIx` on is summed and its downmixed value stored at byte offset
    `outOff`.
  */
  method CombineFrame(input: seq<byte>, w: nat, ghost n: nat, inIx: nat, c: nat, out: array<byte>, outOff: nat)
    requires SupportedWidth(w) && n * w <= |input| && inIx + c <= n && c > 0 && outOff + w <= out.Length
    modifies out
    ensures forall j :: 0 <= j < out.Length ==>
      out[j] == (if outOff <= j < outOff + w then EncodeSigned(MonoSample(Samples(input, w, n)[inIx .. inIx + c], w), w)[j - outOff]
                 else old(out[j]))
  {
    var sample := SumFrame(input, w, n, inIx, c, out, outOff);
    var v: int;
    if w == 1 {
      var b: byte := (Wrap32(sample) / c) % 256;
      v := SignedLe([b]);
    } else {
      v := TruncDiv(sample, c);
    }
    Store(out, outOff, EncodeSigned(v, w));
  }

  lemma EncodeSnoc(ys: seq<int>, s: nat, w: nat)
    requires s < |ys|
    ensures Encode(ys[..s + 1], w) == Encode(ys[..s], w) + EncodeSigned(ys[s], w)
  {
    assert ys[..s + 1][..s] == ys[..s];
  }

  lemma MulSucc(s: int, m: int)
    ensures (s + 1) * m == s * m + m
  {
  }

  lemma MonoAt(xs: seq<int>, c: nat, sampleCount: nat, w: nat, s: nat)
    requires c > 0 && sampleCount * c <= |xs| && s < sampleCount && s * c + c <= |xs|
    ensures Mono(xs, c, sampleCount, w)[s] == MonoSample(xs[s * c .. s * c + c], w)
  {
  }

  /** ys[s] is the downmixed value of frame s of the n samples of width w in input. */
  ghost predicate DownmixedAt(input: seq<byte>, w: nat, n: nat, c: nat, ys: seq<int>, s: nat)
  {
    w > 0 && c > 0 && n * w <= |input| && s < |ys| && s * c + c <= n
    && ys[s] == MonoSample(Samples(input, w, n)[s * c .. s * c + c], w)
  }

  lemma MonoFrames(input: seq<byte>, w: nat, n: nat, c: nat, sampleCount: nat)
    requires w > 0 && n * w <= |input| && c > 0 && n == sampleCount * c
    ensures forall s :: 0 <= s < sampleCount ==> DownmixedAt(input, w, n, c, Mono(Samples(input, w, n), c, sampleCount, w), s)
  {
    var xs := Samples(input, w, n);
    forall s | 0 <= s < sampleCount
      ensures DownmixedAt(input, w, n, c, Mono(xs, c, sampleCount, w), s)
    {
      OffsetInBounds(s, sampleCount, c);
      MonoAt(xs, c, sampleCount, w, s);
    }
  }

  /** One frame stored after the s frames already written, whose bytes end at `outOff`. */
  method DownmixStep(input: seq<byte>, w: nat, ghost n: nat, ghost ys: seq<int>, ghost s: nat,
                     inIx: nat, c: nat, out: array<byte>, outOff: nat)
    requires SupportedWidth(w) && c > 0 && outOff + w <= out.Length
    requires DownmixedAt(input, w, n, c, ys, s) && inIx == s * c
    requires out[..outOff] == Encode(ys[..s], w)
    requires forall j :: outOff <= j < out.Length ==> out[j] == 0
    modifies out
    ensures out[..outOff + w] == Encode(ys[..s + 1], w)
    ensures forall j :: outOff + w <= j < out.Length ==> out[j] == 0
  {
    ghost var before := out[..];
    CombineFrame(input, w, n, inIx, c, out, outOff);
    assert out[..outOff] == before[..outOff];
    assert out[..outOff + w] == out[..outOff] + EncodeSigned(ys[s], w);
    EncodeSnoc(ys, s, w);
  }

  /** The outer loop over the S frames, writing into the zeroed buffer `out`. */
  method DownmixFrames(input: seq<byte>, w: nat, ghost n: nat, ghost ys: seq<int>, sampleCount: nat, channelCount: nat, out: array<byte>)
    requires SupportedWidth(w) && channelCount > 0 && n == sampleCount * channelCount
    requires n * w <= |input| && sampleCount * w <= out.Length && |ys| == sampleCount
    requires forall s :: 0 <= s < sampleCount ==> DownmixedAt(input, w, n, channelCount, ys, s)
    requires forall j :: 0 <= j < out.Length ==> out[j] == 0
    modifies out
    ensures out[..sampleCount * w] == Encode(ys, w)
    ensures forall j :: sampleCount * w <= j < out.Length ==> out[j] == 0
  {
    var inIx := 0;
    var outOff := 0;
    for s := 0 to sampleCount
      invariant inIx == s * channelCount && outOff == s * w
      invariant outOff <= out.Length
      invariant out[..outOff] == Encode(ys[..s], w)
      invariant forall j :: outOff <= j < out.Length ==> out[j] == 0
    {
      assert outOff + w <= sampleCount * w by { OffsetInBounds(s, sampleCount, w); }
      DownmixStep(input, w, n, ys, s, inIx, channelCount, out, outOff);
      assert inIx + channelCount == (s + 1) * channelCount by { MulSucc(s, channelCount); }
      assert outOff + w == (s + 1) * w by { MulSucc(s, w); }
      inIx := inIx + channelCount;
      outOff := outOff + w;
    }
    assert ys[..sampleCount] == ys;
  }

  /**
    `_WavLibCombineChannels`: a zeroed buffer of `w * S * C` bytes whose
    first S samples get the downmixed frames. The three branches of the
    source differ only in the sample width, the accumulator and the final
    conversion, and are one loop here.
  */
  method CombineChannels(input: seq<byte>, bitsPerSample: u32, sampleCount: u32, channelCount: u32)
      returns (output: seq<byte>)
    requires channelCount > 0
    requires (bitsPerSample / 8) * sampleCount * channelCount < TWO_32
    requires SupportedWidth(bitsPerSample / 8) ==> sampleCount * channelCount * (bitsPerSample / 8) <= |input|
    ensures output == CombinedBuffer(input, bitsPerSample / 8, sampleCount, channelCount)
  {
    var w := bitsPerSample / 8;
    var total := w * sampleCount * channelCount;
    var out := new byte[total](_ => 0);
    if SupportedWidth(w) {
      FramePrefixFits(w, sampleCount, channelCount);
      ghost var n := sampleCount * channelCount;
      ghost var ys := Mono(Samples(input, w, n), channelCount, sampleCount, w);
      MonoFrames(input, w, n, channelCount, sampleCount);
      DownmixFrames(input, w, n, ys, sampleCount, channelCount, out);
      assert out[..] == out[..sampleCount * w] + out[sampleCount * w..];
      assert out[sampleCount * w..] == Zeros(total - sampleCount * w);
    } else {
      assert out[..] == Zeros(total);
    }
    output := out[..];
  }

  // ---------------------------------------------------------------------
  // The WaveFile record and the public entry points

  /** The `WaveFile` record the caller passes in. */
  class WaveFile {
    var sizeInBytes: u32
    var totalSampleCount: u32
    var sampleCount: u32
    var sampleSize: u32
    var sampleRate: u32
    var byteRate: u32
    var bitsPerSample: u32
    var channelCount: u32

    constructor (info: WaveInfo)
      ensures Info() == info
    {
      sizeInBytes, totalSampleCount, sampleCount, sampleSize := info.sizeInBytes, info.totalSampleCount, info.sampleCount, info.sampleSize;
      sampleRate, byteRate, bitsPerSample, channelCount := info.sampleRate, info.byteRate, info.bitsPerSample, info.channelCount;
    }

    function Info(): WaveInfo
      reads this
    {
      WaveInfo(sizeInBytes, totalSampleCount, sampleCount, sampleSize, sampleRate, byteRate, bitsPerSample, channelCount)
    }

    /** `_WavLibConvertHeader(this, h)`. */
    method ConvertHeader(h: WaveHeader)
      requires h.channels != 0 && h.bitsPerSample != 0
      modifies this
      ensures Info() == ConvertedHeader(h)
    {
      bitsPerSample := h.bitsPerSample;
      byteRate := h.byteRate;
      channelCount := h.channels;
      sampleRate := h.sampleRate;
      sizeInBytes := h.dataSize;
      totalSampleCount := Wrap32(8 * h.dataSize) / h.bitsPerSample;
      sampleCount := totalSampleCount / channelCount;
      sampleSize := Wrap32(TruncDiv(ToInt32(h.channels * h.bitsPerSample), 8));
    }

    /**
      `_WavLibPreProcess(input, &output, this, flags)`: with the mono flag the
      downmixed buffer and a channel count of 1 (SampleCount and SampleSize
      keep their values); without it the buffer passes through.
    */
    method PreProcess(input: seq<byte>, flags: bv32) returns (output: seq<byte>)
      requires channelCount > 0
      requires (bitsPerSample / 8) * sampleCount * channelCount < TWO_32
      requires SupportedWidth(bitsPerSample / 8) ==> sampleCount * channelCount * (bitsPerSample / 8) <= |input|
      modifies this
      ensures flags & WAV_LIB_FLAG_MONO != 0 ==>
        Info() == old(Info()).(channelCount := 1) &&
        output == CombinedBuffer(input, old(bitsPerSample) / 8, old(sampleCount), old(channelCount))
      ensures flags & WAV_LIB_FLAG_MONO == 0 ==> Info() == old(Info()) && output == input
    {
      if flags & WAV_LIB_FLAG_MONO != 0 {
        output := CombineChannels(input, bitsPerSample, sampleCount, channelCount);
        channelCount := 1;
      } else {
        output := input;
      }
    }
  }

  /** A header that passed the checks. */
  predicate Accepted(h: WaveHeader)
  {
    h.channels != 0 && CheckFormat(h) == FormatOk
  }

  /** The record `WavLibLoadFile` leaves after a successful load. */
  function ProcessedInfo(h: WaveHeader, flags: bv32): (f: WaveInfo)
    requires Accepted(h)
    ensures f.channelCount == if flags & WAV_LIB_FLAG_MONO != 0 then 1 else h.channels
    ensures f == ConvertedHeader(h).(channelCount := f.channelCount)
  {
    CheckFormatAcceptsExactly(h);
    var f := ConvertedHeader(h);
    if flags & WAV_LIB_FLAG_MONO != 0 then f.(channelCount := 1) else f
  }

  /**
    The sizes of an accepted header: the downmix gets a supported width and
    the whole loaded buffer as its S * C samples, and its output size does
    not wrap.
  */
  lemma AcceptedSizes(h: WaveHeader)
    requires Accepted(h)
    ensures var f := ConvertedHeader(h); var w := h.bitsPerSample / 8;
      SupportedWidth(w) && SupportedDepth(h.bitsPerSample) && f.channelCount > 0 && f.bitsPerSample / 8 == w &&
      f.sampleCount * f.channelCount * w == BufferSizeOf(h) &&
      w * f.sampleCount * f.channelCount == BufferSizeOf(h)
  {
    assert SupportedDepth(h.bitsPerSample) by { CheckFormatAcceptsExactly(h); }
    var f := ConvertedHeader(h);
    var s: int, c: int, w: int := f.sampleCount, f.channelCount, h.bitsPerSample / 8;
    assert s * c * w == BufferSizeOf(h) by {
      BufferSizeOnSuccess(h);
    }
    assert w * s * c == s * c * w by { MulRotate(s, c, w); }
  }

  /** The buffer `WavLibLoadFile` returns after a successful load. */
  function ProcessedBuffer(h: WaveHeader, buffer: seq<byte>, flags: bv32): (out: seq<byte>)
    requires Accepted(h) && |buffer| == BufferSizeOf(h)
    ensures |out| == |buffer|
  {
    AcceptedSizes(h);
    var f := ConvertedHeader(h);
    if flags & WAV_LIB_FLAG_MONO != 0 then
      CombinedBuffer(buffer, f.bitsPerSample / 8, f.sampleCount, f.channelCount)
    else buffer
  }

  /**
    After a successful mono load the first SampleCount samples of the buffer
    are the downmixed frames of the loaded samples and the rest is zero;
    without the flag the buffer is the loaded one.
  */
  lemma ProcessedBufferContents(h: WaveHeader, buffer: seq<byte>, flags: bv32)
    requires Accepted(h) && |buffer| == BufferSizeOf(h)
    ensures var f := ConvertedHeader(h); var w := f.bitsPerSample / 8;
      var out := ProcessedBuffer(h, buffer, flags);
      SupportedWidth(w) && f.sampleCount * f.channelCount * w == |buffer| &&
      (flags & WAV_LIB_FLAG_MONO != 0 ==>
        f.sampleCount * w <= |out| &&
        Samples(out, w, f.sampleCount) == Mono(Samples(buffer, w, f.sampleCount * f.channelCount), f.channelCount, f.sampleCount, w) &&
        (forall j :: f.sampleCount * w <= j < |out| ==> out[j] == 0)) &&
      (flags & WAV_LIB_FLAG_MONO == 0 ==> out == buffer)
  {
    CheckFormatAcceptsExactly(h);
    BufferSizeOnSuccess(h);
    var f := ConvertedHeader(h);
    var w := f.bitsPerSample / 8;
    assert f.sampleCount * f.channelCount * w == |buffer|;
    if flags & WAV_LIB_FLAG_MONO != 0 {
      CombinedBufferHoldsMono(buffer, w, f.sampleCount, f.channelCount);
    }
  }

  /**
    A successful load hands `_WavLibPreProcess` what it needs: an accepted
    header, a buffer of S * C samples of a supported width and an output
    size that does not wrap.
  */
  lemma SuccessfulLoad(name: Option<seq<byte>>)
    requires Loadable(name) && LoadFileSpec(name).result == WAVE_SUCCESS
    ensures var raw := LoadFileSpec(name); var h := raw.header; var f := ConvertedHeader(h);
      raw.buffer.Some? && Accepted(raw.header) && |raw.buffer.value| == BufferSizeOf(h) &&
      h.channels != 0 && h.bitsPerSample != 0 && f.channelCount > 0 &&
      (f.bitsPerSample / 8) * f.sampleCount * f.channelCount < TWO_32 &&
      f.sampleCount * f.channelCount * (f.bitsPerSample / 8) == |raw.buffer.value|
  {
    var raw := LoadFileSpec(name);
    var h := raw.header;
    LoadResultCodes(name);
    LoadedBuffer(name.value);
    assert Accepted(h) by { CheckFormatAcceptsExactly(h); }
    AcceptedSizes(h);
  }

  /**
    `WavLibLoadFile`: the header is converted and pre-processed, and the
    output pointer set, only when the load succeeded; otherwise both are
    left as they were.
  */
  method LoadFile(name: Option<seq<byte>>, output: Option<seq<byte>>, header: WaveFile, flags: bv32)
      returns (result: int, output': Option<seq<byte>>)
    requires Loadable(name)
    modifies header
    ensures var raw := LoadFileSpec(name);
      result == raw.result &&
      (result == WAVE_SUCCESS ==>
        (raw.buffer.Some? && Accepted(raw.header) && |raw.buffer.value| == BufferSizeOf(raw.header) &&
         header.Info() == ProcessedInfo(raw.header, flags) &&
         output' == Some(ProcessedBuffer(raw.header, raw.buffer.value, flags)))) &&
      (result != WAVE_SUCCESS ==> header.Info() == old(header.Info()) && output' == output)
  {
    var raw := LoadRaw(name);
    result := raw.result;
    output' := output;
    if result == WAVE_SUCCESS {
      SuccessfulLoad(name);
      header.ConvertHeader(raw.header);
      var out := header.PreProcess(raw.buffer.value, flags);
      output' := Some(out);
    }
  }

  /** The number of floats `WavLibLoadFileFloat` converts: SampleCount * ChannelCount after pre-processing. */
  function FloatCount(h: WaveHeader, flags: bv32): (n: nat)
    requires Accepted(h)
    ensures n * (h.bitsPerSample / 8) <= BufferSizeOf(h)
    ensures n == BufferSizeOf(h) / (h.bitsPerSample / 8) / (if flags & WAV_LIB_FLAG_MONO != 0 then h.channels else 1)
  {
    var f := ProcessedInfo(h, flags);
    CheckFormatAcceptsExactly(h);
    BufferSizeOnSuccess(h);
    FloatCountArith(f.sampleCount, h.channels, h.bitsPerSample / 8, flags & WAV_LIB_FLAG_MONO != 0);
    Wrap32(f.sampleCount * f.channelCount)
  }

  lemma FloatCountArith(s: nat, c: nat, w: nat, mono: bool)
    requires c >= 1 && w >= 1 && s * c * w < TWO_32
    ensures var n := s * (if mono then 1 else c);
      n < TWO_32 && n * w <= s * c * w && n == (s * c * w) / w / (if mono then c else 1)
  {
    assert s * c * w == (s * c) * w;
    DivModUnique(s * c * w, w, s * c, 0);
    assert s <= s * c by { if s > 0 { MulMonotone(c, 1, s); } }
    assert s * w <= (s * c) * w by { if w > 0 { MulMonotone(s * c, s, w); } }
    assert s * c <= (s * c) * w by { if s * c > 0 { MulMonotone(w, 1, s * c); } }
    if mono {
      DivModUnique(s * c, c, s, 0);
    }
  }

  /**
    What `WavLibLoadFileFloat` hands its conversion loop after the
    pre-processing: SampleCount * ChannelCount samples of a supported depth,
    all of them inside the processed buffer.
  */
  lemma FloatInputs(h: WaveHeader, buffer: seq<byte>, flags: bv32)
    requires Accepted(h) && |buffer| == BufferSizeOf(h)
    ensures var f := ProcessedInfo(h, flags);
      SupportedDepth(h.bitsPerSample) &&
      Wrap32(f.sampleCount * f.channelCount) == FloatCount(h, flags) &&
      FloatCount(h, flags) * (h.bitsPerSample / 8) <= |ProcessedBuffer(h, buffer, flags)|
  {
    CheckFormatAcceptsExactly(h);
  }

  /**
    `WavLibLoadFileFloat`: as `WavLibLoadFile`, then each of the
    SampleCount * ChannelCount samples of the pre-processed buffer is
    normalised; every conversion reads within the buffer and every value lies
    in -1 .. 1.
  */
  method LoadFileFloat(name: Option<seq<byte>>, output: Option<seq<real>>, header: WaveFile, flags: bv32)
      returns (result: int, output': Option<seq<real>>)
    requires Loadable(name)
    modifies header
    ensures var raw := LoadFileSpec(name);
      result == raw.result &&
      (result == WAVE_SUCCESS ==>
        (raw.buffer.Some? && Accepted(raw.header) && |raw.buffer.value| == BufferSizeOf(raw.header) &&
         header.Info() == ProcessedInfo(raw.header, flags) &&
         output' == Some(FloatSamples(ProcessedBuffer(raw.header, raw.buffer.value, flags), raw.header.bitsPerSample, FloatCount(raw.header, flags))) &&
         forall k :: 0 <= k < |output'.value| ==> -1.0 <= output'.value[k] < 1.0)) &&
      (result != WAVE_SUCCESS ==> header.Info() == old(header.Info()) && output' == output)
  {
    var raw := LoadRaw(name);
    result := raw.result;
    output' := output;
    if result == WAVE_SUCCESS {
      SuccessfulLoad(name);
      var h := raw.header;
      header.ConvertHeader(h);
      var temp := header.PreProcess(raw.buffer.value, flags);
      assert header.Info() == ProcessedInfo(h, flags) && temp == ProcessedBuffer(h, raw.buffer.value, flags);
      FloatInputs(h, raw.buffer.value, flags);
      var total: u32 := Wrap32(header.sampleCount * header.channelCount);
      var floats := ConvertToFloat(temp, h.bitsPerSample, total);
      output' := Some(floats);
    }
  }
}
