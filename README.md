# WavLib: a verified model of a RIFF/WAVE reader

This project models the reader of WavLib, a small C library that loads
RIFF/WAVE audio files (the "Waveform Audio File Format" of the Microsoft/IBM
Multimedia Programming Interface and Data Specifications 1.0). It covers
`WavLib.c`, the current version, and `WaveFormat.c`, an earlier copy of the
same reader. Both versions do the same things:

- read the fixed 36-byte header field by field;
- skip the extra format bytes;
- scan the chunks until the `data` chunk or the end of the file;
- check the format;
- read `SampleSize * SampleCount` bytes of samples;
- convert the raw header into the caller's `WaveFile` record.

`WavLib.c` adds two things: an optional mono downmix (`WAV_LIB_FLAG_MONO`) and
four specific error codes. `WaveFormat.c` reports every failure as `WAVE_ERROR`.

Modules, one file each:

- `Bytes` (bytes.dfy): C's machine integers.
  - `uint32_t` wrap-around, narrowing to `int32_t` and division that truncates toward zero.
  - Little-endian field decoding.
  - Two's-complement samples.
- `Stdio` (stdio.dfy): the open `FILE`.
  - A `File` class with the file's contents, a position and the end-of-file indicator.
  - `fread`: a short read sets the indicator. `fseek(SEEK_CUR)`: may move past the end and clears it.
- `Riff` (riff.dfy): the `WaveHeader` record, the fixed-offset header read (`ReadHeader`) and the chunk-scan loop (`ScanChunks`). Both versions share these line for line.
  - Each method is proved against a function: `FixedFields`/`HeaderEnd` for the header read, `Scan` for the scan.
- `Sizing` (sizing.dfy): the arithmetic both loaders do.
  - Sample count, sample size and buffer size.
  - The three format checks, in their order.
  - `Loadable`: holds unless a data chunk is reached with Channels * BitsPerSample equal to 0, where the source would divide by zero.
- `Pcm` (pcm.dfy): the sample buffer.
  - Decoding and encoding of 8/16/32-bit samples.
  - The per-frame downmix value.
  - The normalisation to floats, and its conversion loop.
- `WavLib` (wavlib.dfy): `_WavLibLoadData`, `_WavLibLoadFile`, `_WavLibConvertHeader`, `_WavLibCombineChannels` (loops over an `array`), `_WavLibPreProcess`, `WavLibLoadFile` and `WavLibLoadFileFloat`.
  - The caller's `WaveFile` is a class updated in place.
  - Each method is proved against a function of its inputs.
- `WaveFormat` (waveformat.dfy): the earlier copy: `LoadWaveData`, `LoadWaveFile`, `ConvertHeader`, `LoadWaveSoundBuffer` and `LoadWaveSoundBufferFloat`.
- `Agreement` (agreement.dfy): what the two versions have in common.
  - The same header and buffer for every file.
  - The error codes correspond.
  - The two sample-count formulas agree.
  - Without the mono flag, the entry points return the same buffers.

Environment:

- A file name is modelled by what `fopen` finds. `None` is a file that cannot be opened; otherwise the name is the file's bytes.
- The caller's output pointer is an in-out `Option` that keeps its old value when nothing is stored in it.
- The host is little-endian with two's-complement integers: the multi-byte samples read and written through pointer casts are little-endian two's complement.

Quirks of the C code that the model keeps as written:

- No `RIFF`, `WAVE` or `fmt ` marker is ever checked (`MarkersIgnored`, `MarkersDoNotMatter`).
- `FormatLength - 16` wraps when `FormatLength < 16`. With a 64-bit `long`, the scan then seeks about 4 GiB ahead and finds no data chunk (`ShortFormatLengthFindsNoData`).
- `8 * DataSize` wraps at 32 bits (`DataSizeWrapExample`).
- A short read of a chunk id keeps the old bytes of the id field (`ScanAtEndOfFile`, `StaleChunkIdExample`).
- The 8-bit downmix converts the `int32_t` sum to `uint32_t` before dividing (`MonoEightBitNegativeSumExample`).
- The 8-bit downmix performs a dead write `(*Out) += (*In)` before the average overwrites it.

## Model

| member | source | states |
|---|---|---|
| Bytes.Wrap32 | WavLib.c:16 | `uint32_t` arithmetic: a value in 0 .. 2^32-1 that is the input itself when the input fits |
| Bytes.Wrap32Congruent | WavLib.c:16 | the wrapped value differs from the input by exactly floor(x / 2^32) times 2^32 |
| Bytes.ToInt32 | WavLib.c:17 | the `int` product narrowed to 32 bits: in int32 range, unchanged when it fits, congruent modulo 2^32 |
| Bytes.TruncDiv | WavLib.c:294 | C's signed division truncates toward zero: the remainder `a - q * b` has the sign of the dividend and is smaller than the divisor |
| Bytes.TruncDivTowardZero | WavLib.c:294 | on a negative dividend truncation and floor division part: -3 / 2 is -1 in C, -2 as a floor |
| Bytes.LeU16 | WavLib.c:107-108 | the OR of the low byte and the shifted high byte is the little-endian value of the two bytes |
| Bytes.LeU32 | WavLib.c:81-82 | the four-byte OR of shifted bytes is the little-endian value of the four bytes, below 2^32 |
| Bytes.LeValue | WavLib.c:81-82 | the little-endian value of n bytes is below 256^n |
| Bytes.LeValueOfLeBytes | WavLib.c:81-82 | decoding the n-byte encoding of a value below 256^n gives the value back |
| Bytes.LeBytesOfLeValue | WavLib.c:81-82 | encoding the value of a byte string gives the byte string back |
| Bytes.SignedLe | WavLib.c:283-284 | an `intN_t` read through a pointer cast lies in -2^(N-1) .. 2^(N-1)-1 and is negative exactly when its unsigned value reaches 2^(N-1) |
| Bytes.SignedRoundTrip | WavLib.c:294 | storing an in-range value as `(int16_t)`/`(int32_t)`/`(int8_t)` and reading it back gives the value |
| Bytes.SignedBytesRoundTrip | WavLib.c:283-284 | reading a sample and storing it again gives the same bytes |
| Bytes.DivDiv | WavLib.c:240-244 | dividing by a and then by b is dividing by a * b |
| Bytes.DivNotLarger | WavLib.c:16 | the quotient of a `uint32_t` by a positive divisor is a `uint32_t` no larger than it |
| Stdio.Available | WavLib.c:73 | `fread` gets the requested bytes when they are all there, the rest of the file when fewer are, nothing past the end |
| Stdio.ReadSpec | WavLib.c:73 | a read advances the position by the bytes it got and sets the end-of-file indicator exactly on a short read |
| Stdio.SeekPastEnd | WavLib.c:178-215 | after a seek to or past the end of the file the next read gets nothing and sets the end-of-file indicator |
| Stdio.ZeroFill | WavLib.c:79-81 | a read into a zeroed buffer holds the bytes read, then zeros |
| Stdio.ReadInto | WavLib.c:56-58 | the sample buffer holds the file's bytes from the current position, and zeros past the end of the file |
| Stdio.ReadIntoInside | WavLib.c:56-58 | a buffer read that stays inside the file holds exactly the file's bytes at the current position |
| Stdio.File.Read | WavLib.c:73 | the file object reads as `ReadSpec` says |
| Stdio.File.Seek | WavLib.c:178 | the file object seeks as `SeekSpec` says |
| Riff.ReadAtOffset | WavLib.c:73-170 | each sequential field read after o bytes sees `Field(c, o, n)` and leaves the stream after o + n bytes |
| Riff.FixedFields | WavLib.c:73-170 | each header field is the little-endian value of the bytes at its fixed offset (0, 4, 8, 12, 16, 20, 22, 24, 28, 32, 34), with zeros past the end of the file; the id field and DataSize are still zero |
| Riff.HeaderEnd | WavLib.c:175-179 | the stream after the 36 fixed bytes and, when the wrapped `FormatLength - 16` is not 0, a relative seek by it |
| Riff.ReadField | WavLib.c:79-82 | one `memset` plus `fread` of a header field gives `Field` and advances the stream |
| Riff.ReadHeader | WavLib.c:70-179 | the header read fills every field from its fixed offset (`FixedFields`) and leaves the stream at `HeaderEnd`, after the skip of `FormatLength - 16` bytes |
| Riff.ReadFormatFields | WavLib.c:105-170 | the six format fields are read from offsets 20 to 35 of the file, each as a little-endian integer, whatever the markers say |
| Riff.ScanStartsAfterFormatChunk | WavLib.c:175-179 | with the 36 fixed bytes present and `FormatLength >= 16`, the scan starts at offset 20 + FormatLength |
| Riff.Scan | WavLib.c:184-221 | with a 64-bit `long` the scan terminates; it succeeds only on the id `data`; without data it ends at end of file with another id; it never moves backwards |
| Riff.ScanFile | WavLib.c:184-221 | the scan run from `HeaderEnd` with the zeroed id field |
| Riff.ScannedHeader | WavLib.c:184-221 | the fixed fields with the id and DataSize the scan left; channels and depth are those of the fixed fields |
| Riff.ScanChunks | WavLib.c:184-221 | the scan loop returns what `Scan` describes: found, last id and length in the header, final stream state |
| Riff.ScanSkipsByOwnLength | WavLib.c:187-217 | a complete non-data chunk header moves the scan to 8 + its own length bytes further on |
| Riff.ScanStopsAtData | WavLib.c:200-204 | a complete `data` chunk header ends the scan there, with its length and the stream just after it |
| Riff.ScanAtEndOfFile | WavLib.c:185-209 | a round whose 8 header bytes are not all there, or that starts at end of file, is the last: the id read, completed by the stale bytes of the id field, alone decides whether a data chunk is reported, and the scan ends at end of file |
| Riff.ScanAtEndOfFileWithoutData | WavLib.c:204-209 | such a round with a non-data id ends the scan at end of file without a data chunk |
| Riff.NothingAfterFormatChunk | WavLib.c:175-209 | a file with fewer than 4 bytes after the format chunk has no data chunk |
| Riff.ScanCongruent | WavLib.c:184-221 | the scan depends only on the bytes from where it starts |
| Riff.MarkersIgnored | WavLib.c:73-94 | files that differ only in the RIFF, WAVE and `fmt ` markers get the same format fields, the same scan start and the same scan result |
| Riff.ShortFormatLengthFindsNoData | WavLib.c:175-179 | with a 64-bit `long` and `FormatLength < 16` the wrapped skip moves past the end of any file below 4 GiB, and no data chunk is found |
| Riff.StaleIdFileHasNoDataId | WavLib.c:187-193 | the example file holds no four consecutive bytes `data` |
| Riff.StaleChunkIdExample | WavLib.c:187-204 | a one-byte id read keeps three old bytes of the id field, so that file is taken to have a data chunk |
| Riff.StaleFirstRound | WavLib.c:185-209 | the first round of that example skips a chunk of length 0 named `xata`, whose id stays in the id field |
| Riff.StaleIdCompleted | WavLib.c:185-209 | the second round reads only the byte `d` over the stale id `xata`, which yields `data` and ends the scan with a data chunk of length 0 at end of file |
| Sizing.ChannelBitsAsUnsigned | WavLib.c:16 | Channels * BitsPerSample converted to uint32_t as a divisor is the exact product |
| Sizing.ChannelBits | WavLib.c:16 | Channels * BitsPerSample as an exact integer; its uint32_t conversion is the divisor of the sample count |
| Sizing.SampleCountOf | WavLib.c:16 | the wrapped `8 * DataSize` divided by Channels * BitsPerSample: the whole frames in the data chunk's bits |
| Sizing.SampleSizeOf | WavLib.c:17 | `(Channels * BitsPerSample) / 8` computed in `int`: the product narrowed to 32 bits, divided truncating toward zero, stored as uint32_t |
| Sizing.BufferSizeOf | WavLib.c:56 | `SampleSize * SampleCount` wrapped to uint32_t: the bytes read into the sample buffer |
| Sizing.CheckFormat | WavLib.c:19-52 | the three checks in source order: split mismatch, then a tag other than PCM, then a depth other than 8/16/32, else accepted |
| Sizing.Loadable | WavLib.c:16 | holds unless a data chunk is reached with Channels * BitsPerSample equal to 0 |
| Sizing.SampleSizeExact | WavLib.c:17 | below 2^31 the sample size is the plain quotient of the product by 8 |
| Sizing.FrameSizeForSupportedDepth | WavLib.c:17 | for 8, 16 and 32 bits the sample size is Channels * BitsPerSample / 8 and fits with room to spare |
| Sizing.SplitCheckPassesForSupportedDepth | WavLib.c:19-25 | for 8, 16 and 32 bits the bytes always split evenly over the channels |
| Sizing.CheckFormatAcceptsExactly | WavLib.c:19-52 | the checks accept exactly PCM at 8, 16 or 32 bits; a split mismatch is reported exactly when SampleSize leaves a remainder over the channels, whatever the tag, and happens only at other depths; otherwise a tag other than PCM gives NotPcm; otherwise a depth other than 8/16/32 gives UnsupportedBitDepth |
| Sizing.BufferSizeOnSuccess | WavLib.c:16-58 | on an accepted header the buffer size does not wrap, equals SampleCount * Channels * BitsPerSample/8, and is at most the wrapped 8 * DataSize over 8 |
| Sizing.BufferSizeWithoutWrap | WavLib.c:16-58 | when 8 * DataSize does not wrap, the buffer holds at most DataSize bytes and misses less than one frame of them |
| Sizing.WholeFramesOfBytes | WavLib.c:16-17 | n whole frames of SampleSize bytes taken from the 8 * d bits of d bytes fill at most d bytes and miss less than one frame |
| Sizing.DataSizeWrapExample | WavLib.c:16 | a 512 MiB data chunk gives sample count and buffer size 0 |
| Sizing.ChannelSplitMismatchExample | WavLib.c:19-25 | three channels of 4 bits fail the split check |
| Pcm.Zeros | WavLib.c:261 | `memset(Output, 0, n)`: n bytes, all zero |
| Pcm.OffsetInBounds | WavLib.c:266-274 | the k-th of n samples of width w ends within the n * w bytes |
| Pcm.SamplesInRange | WavLib.c:283-284 | every sample read from a buffer fits its width |
| Pcm.SampleOfEncode | WavLib.c:294-295 | each stored sample reads back as the stored value, whatever follows |
| Pcm.DecodeEncode | WavLib.c:283-295 | reading the first samples of an encoded buffer gives back the values stored |
| Pcm.SumBounds | WavLib.c:287-292 | a sum of n samples in lo .. hi lies in n * lo .. n * hi |
| Pcm.MonoSample | WavLib.c:269-311 | the downmixed value of one frame: for 8 bits the sum wrapped to uint32_t, divided by the channels and stored as `int8_t`; for 16 and 32 bits the sum divided by the channels truncating toward zero |
| Pcm.Mono | WavLib.c:263-314 | the S downmixed values, one per frame of C samples |
| Pcm.FrameSumFits | WavLib.c:269-290 | the channel sums fit the `int32_t` accumulator of the 8-bit path and the `int64_t` of the others, for any uint16_t channel count |
| Pcm.MonoBetween | WavLib.c:285-313 | a 16- or 32-bit downmixed value lies between any bounds of the frame's channels, so between its minimum and maximum |
| Pcm.MonoOfEqualFrame | WavLib.c:285-313 | a 16- or 32-bit frame whose channels are all equal downmixes to that value |
| Pcm.MonoEightBitNonNegative | WavLib.c:267-279 | an 8-bit frame with a non-negative sum downmixes to the average of its channels |
| Pcm.MonoTruncatesExample | WavLib.c:285-313 | a 16-bit frame of -1 and -2 downmixes to -1, as C's truncating division gives, not to the floor -2 |
| Pcm.MonoEightBitNegativeSumExample | WavLib.c:277 | three channels of -3 downmix to 82, because the sum is converted to unsigned before the division |
| Pcm.FramePrefixFits | WavLib.c:257-258 | the S downmixed samples fit in the `w * S * C` output bytes |
| Pcm.CombinedBuffer | WavLib.c:257-261 | the downmix output has `BytesPerSample * SampleCount * ChannelCount` bytes |
| Pcm.CombinedBufferHoldsMono | WavLib.c:255-317 | the first S samples of the output are the downmixed frames and the rest is zero |
| Pcm.FullScaleIsHalf | WavLib.c:375-397 | each divisor is half the range of its sample width |
| Pcm.NormalizedRange | WavLib.c:375-397 | every sample normalises into -1 .. 1, with -1 exactly for the smallest sample |
| Pcm.FloatSamples | WavLib.c:370-402 | the first n samples of the buffer, each divided by the full scale of its width: exactly n values |
| Pcm.FloatSamplesInRange | WavLib.c:370-402 | every normalised sample lies in -1 .. 1 |
| Pcm.FloatSamplesExample | WavLib.c:375 | the 8-bit bytes 0, 64, 128, 192 give 0, 0.5, -1, -0.5 |
| Pcm.ConvertToFloat | WavLib.c:370-402 | the pointer loop produces exactly the normalised first n samples, all in -1 .. 1, reading within the buffer |
| WavLib.LoadData | WavLib.c:14-63 | `_WavLibLoadData` returns the code of the first failing check, or success with one read of `BufferSizeOf` bytes from the current position |
| WavLib.LoadDataResult | WavLib.c:14-52 | corrupt exactly when SampleSize does not split over the channels; success exactly for PCM at 8, 16 or 32 bits; an unsupported format otherwise |
| WavLib.LoadFileSpec | WavLib.c:65-230 | not found for a missing file; no data when the scan fails; otherwise the checks' code, with on success the buffer read from just after the data chunk header |
| WavLib.LoadRaw | WavLib.c:65-230 | `_WavLibLoadFile` returns what `LoadFileSpec` describes: not found, no data, a check failure, or success with the buffer |
| WavLib.LoadResultCodes | WavLib.c:14-230 | not found iff the file is missing; no data iff the scan fails, at end of file; at a data chunk, corrupt iff SampleSize leaves a remainder over the channels (only at other depths); unsupported format iff it splits but the format is not PCM at 8/16/32 bits; success iff a data chunk is found in PCM at 8/16/32 bits; a buffer only on success |
| WavLib.LoadedBuffer | WavLib.c:16-58 | on success the buffer holds SampleSize * SampleCount bytes following the data chunk header, whole frames, at most DataSize bytes when nothing wraps |
| WavLib.SameFormatFields | WavLib.c:16-52 | the checks and sizes read only channels, depth, format tag and data size |
| WavLib.ReadPastMarkers | WavLib.c:56-58 | the sample read, which starts past the markers, sees the same bytes in files that differ only in the markers |
| WavLib.MarkersDoNotMatter | WavLib.c:73-94 | files that differ only in their markers load with the same result and the same buffer |
| WavLib.ShortFormatLengthGivesNoData | WavLib.c:175-221 | with a 64-bit `long`, a format length below 16 makes any file below 4 GiB load as `WAVE_NO_DATA` |
| WavLib.NothingAfterFormatChunkGivesNoData | WavLib.c:175-221 | a file that ends less than 4 bytes after its format chunk loads as `WAVE_NO_DATA`, with no buffer |
| WavLib.ConvertedHeader | WavLib.c:232-253 | `((8 * DataSize) / BitsPerSample) / Channels` is the loader's sample count; TotalSampleCount is the wrapped 8 * DataSize over BitsPerSample, and SampleCount is TotalSampleCount over the channels, rounded down |
| WavLib.ConvertedHeaderDescribesBuffer | WavLib.c:240-246 | on success the record describes the buffer: SampleCount * ChannelCount samples of BitsPerSample / 8 bytes |
| WavLib.WaveFile.ConvertHeader | WavLib.c:232-253 | the record's fields become `ConvertedHeader` |
| WavLib.SumFrame | WavLib.c:269-275 | the inner loop sums the frame's channels; for 8 bits it also writes the dead `(*Out) += (*In)` byte; nothing else changes |
| WavLib.CombineFrame | WavLib.c:267-279 | one outer round stores the frame's downmixed value at its output offset; nothing else changes |
| WavLib.MonoFrames | WavLib.c:267-279 | every frame of the downmixed sequence is the downmix of its samples |
| WavLib.DownmixStep | WavLib.c:267-279 | after s + 1 rounds the written prefix is the encoding of the first s + 1 downmixed frames, and the rest is still zero |
| WavLib.DownmixFrames | WavLib.c:263-314 | the outer loop writes the encoding of all S downmixed frames and leaves the rest of the output zero |
| WavLib.CombineChannels | WavLib.c:255-317 | `_WavLibCombineChannels` returns `CombinedBuffer`: a zeroed buffer of `w * S * C` bytes whose first S samples are the downmixed frames |
| WavLib.WaveFile.PreProcess | WavLib.c:319-335 | with the mono flag the buffer is downmixed and only ChannelCount changes, to 1; without it the buffer and the record are unchanged |
| WavLib.ProcessedInfo | WavLib.c:319-347 | after a successful load the record is the converted header, with ChannelCount 1 under the mono flag |
| WavLib.AcceptedSizes | WavLib.c:255-258 | on an accepted header the downmix gets a supported width, the whole buffer as its S * C samples, and an output size that does not wrap |
| WavLib.ProcessedBuffer | WavLib.c:319-347 | the returned buffer has the length of the loaded one |
| WavLib.ProcessedBufferContents | WavLib.c:319-335 | under the mono flag the first SampleCount samples are the downmixed frames and the rest zero; without it the loaded buffer is returned |
| WavLib.SuccessfulLoad | WavLib.c:337-347 | a successful load meets what the conversion and the pre-processing need |
| WavLib.LoadFile | WavLib.c:337-350 | `WavLibLoadFile` returns the load result; only on success it converts and pre-processes the record and sets the output; otherwise both are left as they were |
| WavLib.FloatCount | WavLib.c:366 | the float count SampleCount * ChannelCount is the buffer size over the sample width, over the channels under the mono flag |
| WavLib.FloatCountArith | WavLib.c:366-372 | the float count does not wrap and its samples lie within the buffer |
| WavLib.FloatInputs | WavLib.c:360-370 | after the pre-processing the float count is SampleCount * ChannelCount of the processed record, and that many samples of a supported depth lie inside the processed buffer |
| WavLib.LoadFileFloat | WavLib.c:352-408 | `WavLibLoadFileFloat` returns the load result; on success the output holds the normalised SampleCount * ChannelCount samples of the pre-processed buffer, all in -1 .. 1; otherwise nothing changes |
| WaveFormat.LoadWaveDataResult | WaveFormat.c:12-45 | success exactly for PCM at 8, 16 or 32 bits; every other outcome is `WAVE_ERROR` |
| WaveFormat.LoadWaveData | WaveFormat.c:7-56 | `LoadWaveData` returns that code, and on success one read of `BufferSizeOf` bytes from the current position |
| WaveFormat.LoadWaveFile | WaveFormat.c:58-210 | `LoadWaveFile` returns what `LoadWaveFileSpec` describes |
| WaveFormat.LoadWaveFileSpec | WaveFormat.c:58-210 | `WAVE_ERROR` for a missing file (with the zeroed header) or a failed scan; otherwise the checks' code, with on success the buffer read after the data chunk header |
| WaveFormat.NothingAfterFormatChunkIsError | WaveFormat.c:156-201 | a file that ends less than 4 bytes after its format chunk loads as `WAVE_ERROR`, with no buffer |
| WaveFormat.WaveResultCodes | WaveFormat.c:58-210 | only two codes; success iff a data chunk is found in PCM at 8/16/32 bits; a buffer only on success, of SampleCount whole frames |
| WaveFormat.ConvertedHeader | WaveFormat.c:212-228 | SampleCount is the number of whole frames in the wrapped 8 * DataSize bits; each other field is copied or is the loader's sample size |
| WaveFormat.WaveFile.ConvertHeader | WaveFormat.c:212-228 | the record's fields become `ConvertedHeader` |
| WaveFormat.ConvertedHeaderDescribesBuffer | WaveFormat.c:220-223 | on success the buffer is SampleCount frames of ChannelCount samples, SampleSize * SampleCount bytes, and SampleCount * ChannelCount does not wrap |
| WaveFormat.LoadWaveSoundBuffer | WaveFormat.c:230-240 | the record is converted and the output set only on success; otherwise both are left as they were |
| WaveFormat.TotalSampleCountFits | WaveFormat.c:252-288 | the float loop covers exactly SampleCount * ChannelCount samples, which are the whole loaded buffer |
| WaveFormat.TotalSampleCount | WaveFormat.c:252 | SampleCount * ChannelCount of the converted record, wrapped to uint32_t: the number of floats converted |
| WaveFormat.TotalWithoutWrap | WaveFormat.c:252 | when SampleCount * ChannelCount fits in uint32_t the total is exactly that product |
| WaveFormat.LoadWaveSoundBufferFloat | WaveFormat.c:242-294 | on success the output holds the normalised samples of the whole buffer, all in -1 .. 1; otherwise nothing changes |
| Agreement.LoadersAgree | WaveFormat.c:58-210 | both versions fill the same header and load the same buffer; the earlier one reports an error exactly when the later one does not report success |
| Agreement.ConvertedHeadersAgree | WavLib.c:240-246 | the two sample-count formulas agree, as do all the fields the two records share |
| Agreement.EntryPointsAgreeWithoutMono | WavLib.c:337-408 | without the mono flag the later entry points return the same bytes, frame count and floats as the earlier ones |

## Left out

- File I/O: `fopen` and `fclose` are not modelled. A file is an `Option` of its bytes, and a missing file is `None`. Files larger than what `long` offsets reach are not distinguished.
- The diagnostics (`printf`, `DebugPrint`), the `FormatName` selection and `LowLimit`/`HighLimit`: they only feed the prints.
- `Duration` in both `WaveFile` records: it is a floating-point division.
- Float rounding: the normalised samples are exact reals. Rounding to `float`, including that of 32-bit samples converted to `float`, is not modelled. The strict upper bound `< 1` of NormalizedRange, ConvertToFloat, LoadFileFloat and LoadWaveSoundBufferFloat holds of the reals only: in C `(float)2147483647` is `2147483648.0f`, so the 32-bit path returns exactly 1.0f for the largest sample.
- `long` is taken as 64 bits (LP64), so the `uint32_t` skip lengths reach `fseek` unchanged. With a 32-bit `long` a length of 2^31 or more seeks backwards: a short format length re-reads the format chunk, and a chunk length of 0xFFFFFFF8 makes the scan loop forever. Scan's termination, ShortFormatLengthFindsNoData and ShortFormatLengthGivesNoData are facts about the 64-bit reading.
- Bytes.LeU32: `Buffer[3] << 24` with a top byte of 128 or more overflows `int`, which C leaves undefined; the model takes the usual wrap to the same `uint32_t`.
- `WavLibMalloc`, `WavLibFree`, `malloc`, `free` and `WavLibGetError`: allocation, ownership and an error-string table.
- WavLib.h declares `WavLibLoadFileFloat32` and `WavLibLoadFileFloat64`, but WavLib.c does not define them; `WavLibLoadFileFloat` stands for both.
- The uninitialised tail of a buffer after a short read: `malloc` leaves it undefined. The model reads it as zeros, so claims about those bytes only hold for this choice.
- LoadRaw: requires `Loadable`, because the source divides by zero when Channels * BitsPerSample is 0 at a data chunk. The same holds for LoadWaveFile, LoadFile, LoadFileFloat, LoadWaveSoundBuffer and LoadWaveSoundBufferFloat. `int` overflow of that product is modelled as two's-complement wrap-around.
- LoadRaw: when the file cannot be opened the header stays uninitialised, since WavLib.c:341 and WavLib.c:354 declare it without an initialiser. The model returns `ZeroHeader` there, and no caller reads it. (In WaveFormat.c the callers zero-initialise the header at WaveFormat.c:232 and WaveFormat.c:244, so `ZeroHeader` from LoadWaveFile is exactly the source's value.)
- WavLib.CombineChannels: requires that the output size `w * S * C` does not wrap in `uint32_t`, and that the input holds S * C samples. A successful load meets both (`AcceptedSizes`).
- WavLib.CombineChannels: the three branches of the source are one loop over the sample width. The `int32_t` accumulator of the 8-bit path is an unbounded integer. `FrameSumFits` shows that the sums stay in range.
- WavLib.WaveFile.PreProcess: freeing the input buffer is not modelled.
