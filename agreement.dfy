/**
  What the two versions of the reader have in common. WaveFormat.c is the
  earlier copy of WavLib.c: both read the same header and scan the chunks
  the same way, so on every file they fill the same header and load the
  same buffer. They differ in the result codes (one `WAVE_ERROR` against
  four specific codes), in the record (WavLib.c adds a total sample count
  and computes the frame count from it) and in the optional mono downmix.
*/
module Agreement {
  import opened Bytes
  import opened Stdio
  import opened Riff
  import opened Sizing
  import opened Pcm
  import WL = WavLib
  import WF = WaveFormat

  /**
    Both loaders fill the same header and load the same buffer, and the
    earlier one reports an error exactly when the later one reports
    anything but success.
  */
  lemma LoadersAgree(file: Option<seq<byte>>)
    requires Loadable(file)
    ensures var a := WL.LoadFileSpec(file); var b := WF.LoadWaveFileSpec(file);
      b.header == a.header && b.buffer == a.buffer &&
      (b.result == WF.WAVE_SUCCESS <==> a.result == WL.WAVE_SUCCESS) &&
      (b.result == WF.WAVE_ERROR <==> a.result != WL.WAVE_SUCCESS)
  {
    if file.Some? && ScanFile(file.value).found {
      var h := ScannedHeader(file.value);
      CheckFormatAcceptsExactly(h);
    }
  }

  /**
    The two header conversions agree on every field they share: WavLib.c's
    `(8 * DataSize / BitsPerSample) / Channels` is the earlier
    `8 * DataSize / (Channels * BitsPerSample)`.
  */
  lemma ConvertedHeadersAgree(h: WaveHeader)
    requires h.channels != 0 && h.bitsPerSample != 0
    ensures ChannelBits(h) != 0
    ensures var a := WL.ConvertedHeader(h); var b := WF.ConvertedHeader(h);
      b.sampleCount == a.sampleCount && b.sampleSize == a.sampleSize && b.sizeInBytes == a.sizeInBytes &&
      b.sampleRate == a.sampleRate && b.byteRate == a.byteRate &&
      b.bitsPerSample == a.bitsPerSample && b.channelCount == a.channelCount
  {
    var a, b := WL.ConvertedHeader(h), WF.ConvertedHeader(h);
    var x: nat, k: nat, s: nat := Wrap32(8 * h.dataSize), ChannelBits(h), b.sampleCount;
    assert k * s <= x < k * s + k;
    assert s == x / k by { DivModUnique(x, k, s, x - k * s); }
    assert a.sampleCount == x / k;
  }

  /**
    Without the mono flag the later entry points return exactly what the
    earlier ones do: the record on their shared fields, the byte buffer and
    the normalised samples.
  */
  lemma EntryPointsAgreeWithoutMono(file: Option<seq<byte>>)
    requires Loadable(file) && WF.LoadWaveFileSpec(file).result == WF.WAVE_SUCCESS
    ensures var a := WL.LoadFileSpec(file); var b := WF.LoadWaveFileSpec(file); var h := a.header;
      a.result == WL.WAVE_SUCCESS && a.buffer.Some? && WL.Accepted(h) && |a.buffer.value| == BufferSizeOf(h) &&
      WL.ProcessedBuffer(h, a.buffer.value, WL.WAV_LIB_FLAG_NONE) == b.buffer.value &&
      WL.ProcessedInfo(h, WL.WAV_LIB_FLAG_NONE).sampleCount == WF.ConvertedHeader(h).sampleCount &&
      WL.ProcessedInfo(h, WL.WAV_LIB_FLAG_NONE).channelCount == WF.ConvertedHeader(h).channelCount &&
      WL.FloatCount(h, WL.WAV_LIB_FLAG_NONE) == WF.TotalSampleCount(h) &&
      FloatSamples(WL.ProcessedBuffer(h, a.buffer.value, WL.WAV_LIB_FLAG_NONE), h.bitsPerSample, WL.FloatCount(h, WL.WAV_LIB_FLAG_NONE))
        == FloatSamples(b.buffer.value, h.bitsPerSample, WF.TotalSampleCount(h))
  {
    LoadersAgree(file);
    WL.SuccessfulLoad(file);
    WF.TotalSampleCountFits(file);
    var h := WL.LoadFileSpec(file).header;
    ConvertedHeadersAgree(h);
  }
}
