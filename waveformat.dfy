/**
  WaveFormat.c, the earlier form of the same reader: `LoadWaveData`,
  `LoadWaveFile`, `ConvertHeader` and the public entry points
  `LoadWaveSoundBuffer` and `LoadWaveSoundBufferFloat`.

  It reads the header and scans the chunks exactly as WavLib.c does, runs
  the same checks and reads the same buffer, but reports every failure as
  `WAVE_ERROR`, has no pre-processing, and its `WaveFile` record has no
  total sample count.
*/
module WaveFormat {
  import opened Bytes
  import opened Stdio
  import opened Riff
  import opened Sizing
  import opened Pcm

  const WAVE_ERROR: int := -1
  const WAVE_SUCCESS: int := 0

  // ---------------------------------------------------------------------
  // LoadWaveData and LoadWaveFile

  /** The code `LoadWaveData` returns: success only when every check passes. */
  function LoadWaveDataResult(h: WaveHeader): (result: int)
    requires h.channels != 0
    ensures result == WAVE_SUCCESS <==> h.formatType == WAVE_FORMAT_PCM && SupportedDepth(h.bitsPerSample)
    ensures result == WAVE_ERROR <==> result != WAVE_SUCCESS
  {
    CheckFormatAcceptsExactly(h);
    if CheckFormat(h) == FormatOk then WAVE_SUCCESS else WAVE_ERROR
  }

  /** What `LoadWaveFile` leaves behind: its result, the header it filled and the buffer it allocated. */
  datatype WaveLoad = WaveLoad(result: int, header: WaveHeader, buffer: Option<seq<byte>>)

  /**
    `LoadWaveFile`: an error when the file cannot be opened, with the header
    left as its callers zero-initialise it (`ZeroHeader`); otherwise the
    header read, the scan for `data`, an error when the scan reaches the end
    of the file, and on a data chunk the checks and the read of the sample
    buffer from just after the chunk's header.
  */
  function LoadWaveFileSpec(file: Option<seq<byte>>): WaveLoad
    requires Loadable(file)
  {
    if file.None? then WaveLoad(WAVE_ERROR, ZeroHeader, None)
    else
      var c := file.value;
      var r := ScanFile(c);
      var h := ScannedHeader(c);
      if !r.found then WaveLoad(WAVE_ERROR, h, None)
      else
        var result := LoadWaveDataResult(h);
        WaveLoad(result, h, if result == WAVE_SUCCESS then Some(ReadInto(c, r.cur, BufferSizeOf(h))) else None)
  }

  /** `LoadWaveData`: the checks in order, then one read of the whole buffer. */
  method LoadWaveData(file: File, h: WaveHeader) returns (result: int, buffer: Option<seq<byte>>)
    requires ChannelBits(h) != 0
    modifies file
    ensures result == LoadWaveDataResult(h)
    ensures buffer == if result == WAVE_SUCCESS then Some(ReadInto(file.contents, old(file.State()), BufferSizeOf(h))) else None
  {
    var product := ToInt32(h.channels * h.bitsPerSample);
    var divisor: u32 := Wrap32(product);
    assert divisor == ChannelBits(h) by { ChannelBitsAsUnsigned(h); }
    assert 0 <= Wrap32(8 * h.dataSize) / divisor <= Wrap32(8 * h.dataSize) by {
      DivNotLarger(Wrap32(8 * h.dataSize), divisor);
    }
    var sampleCount: u32 := Wrap32(8 * h.dataSize) / divisor;
    var sampleSize: u32 := Wrap32(TruncDiv(product, 8));

    assert 0 <= sampleSize / h.channels <= sampleSize by {
      DivNotLarger(sampleSize, h.channels);
    }
    var bytesInEachChannel: u32 := sampleSize / h.channels;
    if bytesInEachChannel * h.channels != sampleSize {
      return WAVE_ERROR, None;
    }
    if h.formatType != 1 {
      return WAVE_ERROR, None;
    }
    if !(h.bitsPerSample == 8 || h.bitsPerSample == 16 || h.bitsPerSample == 32) {
      return WAVE_ERROR, None;
    }

    var bufferSize: u32 := Wrap32(sampleSize * sampleCount);
    var got := file.Read(bufferSize);
    buffer := Some(ZeroFill(got, bufferSize));
    result := WAVE_SUCCESS;
  }

  /** `LoadWaveFile`: open, read the header, scan the chunks, load the data. */
  method LoadWaveFile(file: Option<seq<byte>>) returns (r: WaveLoad)
    requires Loadable(file)
    ensures r == LoadWaveFileSpec(file)
  {
    if file.None? {
      return WaveLoad(WAVE_ERROR, ZeroHeader, None);
    }
    var f := new File.Open(file.value);
    var h := ReadHeader(f);
    var found;
    found, h := ScanChunks(f, h);
    if found {
      var result, buffer := LoadWaveData(f, h);
      r := WaveLoad(result, h, buffer);
    } else {
      r := WaveLoad(WAVE_ERROR, h, None);
    }
  }

  /**
    Only two codes: success exactly for an opened file with a data chunk, in
    PCM and at 8, 16 or 32 bits, and an error for everything else; only
    success comes with a buffer, and on success the buffer holds
    SampleCount whole frames.
  */
  lemma WaveResultCodes(file: Option<seq<byte>>)
    requires Loadable(file)
    ensures var r := LoadWaveFileSpec(file);
      (r.result == WAVE_SUCCESS <==>
        file.Some? && ScanFile(file.value).found &&
        r.header.formatType == WAVE_FORMAT_PCM && SupportedDepth(r.header.bitsPerSample)) &&
      (r.result == WAVE_ERROR <==> r.result != WAVE_SUCCESS) &&
      (r.buffer.Some? <==> r.result == WAVE_SUCCESS) &&
      (r.result == WAVE_SUCCESS ==>
        ChannelBits(r.header) != 0 && CheckFormat(r.header) == FormatOk &&
        |r.buffer.value| == SampleCountOf(r.header) * r.header.channels * (r.header.bitsPerSample / 8))
  {
    var r := LoadWaveFileSpec(file);
    if r.result == WAVE_SUCCESS {
      CheckFormatAcceptsExactly(r.header);
      BufferSizeOnSuccess(r.header);
    }
  }

  /** A file that ends right after its format chunk, or fewer than 4 bytes later, loads as `WAVE_ERROR`. */
  lemma NothingAfterFormatChunkIsError(c: seq<byte>)
    requires |c| < HeaderEnd(c).pos + 4
    ensures Loadable(Some(c)) && LoadWaveFileSpec(Some(c)).result == WAVE_ERROR
    ensures LoadWaveFileSpec(Some(c)).buffer == None
  {
    NothingAfterFormatChunk(c);
  }

  // ---------------------------------------------------------------------
  // ConvertHeader

  /** The fields of this version's `WaveFile` record, less `Duration`. */
  datatype WaveInfo = WaveInfo(
    sizeInBytes: u32,
    sampleCount: u32,
    sampleSize: u32,
    sampleRate: u32,
    byteRate: u32,
    bitsPerSample: u32,
    channelCount: u32)

  /**
    `ConvertHeader`: the sample count is `(8 * DataSize) / (Channels *
    BitsPerSample)`, the number of whole frames in the wrapped bit count of
    the data chunk.
  */
  function ConvertedHeader(h: WaveHeader): (f: WaveInfo)
    requires ChannelBits(h) != 0
    ensures ChannelBits(h) * f.sampleCount <= Wrap32(8 * h.dataSize) < ChannelBits(h) * f.sampleCount + ChannelBits(h)
    ensures f.sampleSize == SampleSizeOf(h) && f.sizeInBytes == h.dataSize
    ensures f.channelCount == h.channels && f.bitsPerSample == h.bitsPerSample
    ensures f.sampleRate == h.sampleRate && f.byteRate == h.byteRate
  {
    // the int product converts back to uint32_t as the divisor, as in the loader
    DivBounds(Wrap32(8 * h.dataSize), ChannelBits(h));
    WaveInfo(
      sizeInBytes := h.dataSize,
      sampleCount := SampleCountOf(h),
      sampleSize := SampleSizeOf(h),
      sampleRate := h.sampleRate,
      byteRate := h.byteRate,
      bitsPerSample := h.bitsPerSample,
      channelCount := h.channels)
  }

  /** The `WaveFile` record the caller passes in. */
  class WaveFile {
    var sizeInBytes: u32
    var sampleCount: u32
    var sampleSize: u32
    var sampleRate: u32
    var byteRate: u32
    var bitsPerSample: u32
    var channelCount: u32

    constructor (info: WaveInfo)
      ensures Info() == info
    {
      sizeInBytes, sampleCount, sampleSize := info.sizeInBytes, info.sampleCount, info.sampleSize;
      sampleRate, byteRate, bitsPerSample, channelCount := info.sampleRate, info.byteRate, info.bitsPerSample, info.channelCount;
    }

    function Info(): WaveInfo
      reads this
    {
      WaveInfo(sizeInBytes, sampleCount, sampleSize, sampleRate, byteRate, bitsPerSample, channelCount)
    }

    /** `ConvertHeader(this, h)`. */
    method ConvertHeader(h: WaveHeader)
      requires ChannelBits(h) != 0
      modifies this
      ensures Info() == ConvertedHeader(h)
    {
      bitsPerSample := h.bitsPerSample;
      byteRate := h.byteRate;
      channelCount := h.channels;
      sampleRate := h.sampleRate;
      sizeInBytes := h.dataSize;
      var product := ToInt32(h.channels * h.bitsPerSample);
      assert Wrap32(product) == ChannelBits(h) by { ChannelBitsAsUnsigned(h); }
      assert 0 <= Wrap32(8 * h.dataSize) / Wrap32(product) <= Wrap32(8 * h.dataSize) by {
        DivNotLarger(Wrap32(8 * h.dataSize), Wrap32(product));
      }
      sampleCount := Wrap32(8 * h.dataSize) / Wrap32(product);
      sampleSize := Wrap32(TruncDiv(product, 8));
    }
  }

  // ---------------------------------------------------------------------
  // The public entry points

  /**
    On success the record describes the buffer: SampleCount frames of
    ChannelCount samples of BitsPerSample / 8 bytes, and SampleCount *
    ChannelCount does not wrap.
  */
  lemma ConvertedHeaderDescribesBuffer(file: Option<seq<byte>>)
    requires Loadable(file) && LoadWaveFileSpec(file).result == WAVE_SUCCESS
    ensures var r := LoadWaveFileSpec(file); var f := ConvertedHeader(r.header);
      r.buffer.Some? && SupportedDepth(f.bitsPerSample) &&
      |r.buffer.value| == f.sampleCount * f.channelCount * (f.bitsPerSample / 8) &&
      |r.buffer.value| == f.sampleSize * f.sampleCount &&
      f.sampleCount * f.channelCount < TWO_32
  {
    var r := LoadWaveFileSpec(file);
    var h := r.header;
    WaveResultCodes(file);
    var f := ConvertedHeader(h);
    var sc: nat, c: nat, w: int := f.sampleCount, f.channelCount, f.bitsPerSample / 8;
    assert sc == SampleCountOf(h) && c == h.channels && w == h.bitsPerSample / 8 && f.sampleSize == SampleSizeOf(h);
    assert |r.buffer.value| == sc * c * w;
    assert |r.buffer.value| == f.sampleSize * sc by { BufferSizeOnSuccess(h); }
    assert sc * c <= sc * c * w by { ProductAtMost(sc, c, w); }
  }

  /**
    `LoadWaveSoundBuffer`: the record is converted, and the output pointer
    set, only when the load succeeded; otherwise both are left as they were.
  */
  method LoadWaveSoundBuffer(name: Option<seq<byte>>, output: Option<seq<byte>>, header: WaveFile)
      returns (result: int, output': Option<seq<byte>>)
    requires Loadable(name)
    modifies header
    ensures var raw := LoadWaveFileSpec(name);
      result == raw.result &&
      (result == WAVE_SUCCESS ==>
        raw.buffer.Some? && ChannelBits(raw.header) != 0 &&
        header.Info() == ConvertedHeader(raw.header) && output' == raw.buffer) &&
      (result != WAVE_SUCCESS ==> header.Info() == old(header.Info()) && output' == output)
  {
    var raw := LoadWaveFile(name);
    result := raw.result;
    output' := output;
    if result == WAVE_SUCCESS {
      WaveResultCodes(name);
      header.ConvertHeader(raw.header);
      output' := raw.buffer;
    }
  }

  /** `TotalSampleCount`: SampleCount * ChannelCount in uint32_t, the floats the entry point converts. */
  function TotalSampleCount(h: WaveHeader): (n: u32)
    requires ChannelBits(h) != 0
  {
    var f := ConvertedHeader(h);
    Wrap32(f.sampleCount * f.channelCount)
  }

  /** On success the count does not wrap and its samples are exactly the loaded buffer. */
  lemma TotalSampleCountFits(file: Option<seq<byte>>)
    requires Loadable(file) && LoadWaveFileSpec(file).result == WAVE_SUCCESS
    ensures var r := LoadWaveFileSpec(file); var h := r.header;
      r.buffer.Some? && ChannelBits(h) != 0 && SupportedDepth(h.bitsPerSample) &&
      TotalSampleCount(h) == SampleCountOf(h) * h.channels &&
      TotalSampleCount(h) * (h.bitsPerSample / 8) == |r.buffer.value|
  {
    ConvertedHeaderDescribesBuffer(file);
    var h := LoadWaveFileSpec(file).header;
    var f := ConvertedHeader(h);
    assert f.sampleCount == SampleCountOf(h) && f.channelCount == h.channels && f.bitsPerSample == h.bitsPerSample;
    TotalWithoutWrap(h);
  }

  /** When SampleCount * ChannelCount fits in uint32_t the total is that product. */
  lemma TotalWithoutWrap(h: WaveHeader)
    requires ChannelBits(h) != 0 && SampleCountOf(h) * h.channels < TWO_32
    ensures TotalSampleCount(h) == SampleCountOf(h) * h.channels
  {
    var f := ConvertedHeader(h);
    assert f.sampleCount == SampleCountOf(h) && f.channelCount == h.channels;
  }

  /**
    `LoadWaveSoundBufferFloat`: as `LoadWaveSoundBuffer`, then each of the
    SampleCount * ChannelCount samples of the loaded buffer is normalised;
    every conversion reads within the buffer and every value lies in -1 .. 1.
  */
  method LoadWaveSoundBufferFloat(name: Option<seq<byte>>, output: Option<seq<real>>, header: WaveFile)
      returns (result: int, output': Option<seq<real>>)
    requires Loadable(name)
    modifies header
    ensures var raw := LoadWaveFileSpec(name);
      result == raw.result &&
      (result == WAVE_SUCCESS ==>
        raw.buffer.Some? && ChannelBits(raw.header) != 0 && SupportedDepth(raw.header.bitsPerSample) &&
        TotalSampleCount(raw.header) * (raw.header.bitsPerSample / 8) == |raw.buffer.value| &&
        header.Info() == ConvertedHeader(raw.header) &&
        output' == Some(FloatSamples(raw.buffer.value, raw.header.bitsPerSample, TotalSampleCount(raw.header))) &&
        forall k :: 0 <= k < |output'.value| ==> -1.0 <= output'.value[k] < 1.0) &&
      (result != WAVE_SUCCESS ==> header.Info() == old(header.Info()) && output' == output)
  {
    var raw := LoadWaveFile(name);
    result := raw.result;
    output' := output;
    if result == WAVE_SUCCESS {
      TotalSampleCountFits(name);
      var h := raw.header;
      header.ConvertHeader(h);
      var total: u32 := Wrap32(header.sampleCount * header.channelCount);
      var floats := ConvertToFloat(raw.buffer.value, h.bitsPerSample, total);
      output' := Some(floats);
    }
  }
}
