/**
  The RIFF/WAVE reading that WavLib.c and WaveFormat.c share line for line:
  the `WaveHeader` record both headers declare, the fixed-offset read of the
  first 36 bytes, the skip of the extra format bytes, and the chunk-scan loop
  that looks for the `data` chunk.

  No marker (`RIFF`, `WAVE`, `fmt `) is ever compared with anything: the
  format fields are taken from fixed offsets 20..35 whatever the file holds.
*/
module Riff {
  import opened Bytes
  import opened Stdio

  const WAVE_FORMAT_PCM: u16 := 0x0001
  const WAVE_FORMAT_IEEE_FLOAT: u16 := 0x0003
  const WAVE_FORMAT_ALAW: u16 := 0x0006
  const WAVE_FORMAT_MULAW: u16 := 0x0007
  const WAVE_FORMAT_EXTENSIBLE: u16 := 0xffff

  /** The chunk identifier `data`. */
  const DATA: seq<byte> := [0x64, 0x61, 0x74, 0x61]

  /** Bytes consumed by the fixed header fields: RIFF, size, WAVE, fmt id, length and the 16 format bytes. */
  const FIXED_HEADER_SIZE: nat := 36

  /** The raw header as read from the file. */
  datatype WaveHeader = WaveHeader(
    riff: seq<byte>,
    sizeInBytes: u32,
    wave: seq<byte>,
    formatChunkMarker: seq<byte>,
    formatLength: u32,
    formatType: u16,
    channels: u16,
    sampleRate: u32,
    byteRate: u32,
    blockAlignment: u16,
    bitsPerSample: u16,
    dataChunkHeader: seq<byte>,
    dataSize: u32)

  /** The header after `memset(Header, 0, sizeof(WaveHeader))`. */
  const ZeroHeader: WaveHeader :=
    WaveHeader([0, 0, 0, 0], 0, [0, 0, 0, 0], [0, 0, 0, 0], 0, 0, 0, 0, 0, 0, 0, [0, 0, 0, 0], 0)

  // ---------------------------------------------------------------------
  // The fixed-offset header read

  /** The byte at offset i, or 0 past the end (a short read into a zeroed buffer). */
  function ByteAt(c: seq<byte>, i: nat): byte
  {
    if i < |c| then c[i] else 0
  }

  /** The n bytes at offset o as a read into a zeroed buffer sees them. */
  function Field(c: seq<byte>, o: nat, n: nat): (r: seq<byte>)
    ensures |r| == n
  {
    seq<byte>(n, j requires 0 <= j < n => ByteAt(c, o + j))
  }

  /**
    The header that the sequential reads fill in: each field comes from a
    fixed offset of the file, whatever the markers say.
  */
  function FixedFields(c: seq<byte>): WaveHeader
  {
    WaveHeader(
      riff := Field(c, 0, 4),
      sizeInBytes := LeU32(Field(c, 4, 4)),
      wave := Field(c, 8, 4),
      formatChunkMarker := Field(c, 12, 4),
      formatLength := LeU32(Field(c, 16, 4)),
      formatType := LeU16(Field(c, 20, 2)),
      channels := LeU16(Field(c, 22, 2)),
      sampleRate := LeU32(Field(c, 24, 4)),
      byteRate := LeU32(Field(c, 28, 4)),
      blockAlignment := LeU16(Field(c, 32, 2)),
      bitsPerSample := LeU16(Field(c, 34, 2)),
      dataChunkHeader := [0, 0, 0, 0],
      dataSize := 0)
  }

  /** The stream state after sequential reads have consumed o bytes from the start. */
  function AtOffset(c: seq<byte>, o: nat): Cursor
  {
    Cursor(if o <= |c| then o else |c|, |c| < o)
  }

  /**
    The stream state when the chunk scan starts: after the 36 fixed bytes, and
    after `fseek` by `FormatLength - 16` (uint32_t, so it wraps when
    FormatLength < 16) when that is not zero.
  */
  function HeaderEnd(c: seq<byte>): Cursor
  {
    var afterFields := AtOffset(c, FIXED_HEADER_SIZE);
    var skip := Wrap32(FixedFields(c).formatLength - 16);
    if skip != 0 then SeekSpec(afterFields, skip) else afterFields
  }

  /** A read of n bytes after o bytes have been consumed sees Field(c, o, n). */
  lemma ReadAtOffset(c: seq<byte>, o: nat, n: nat)
    requires n > 0
    ensures var r := ReadSpec(c, AtOffset(c, o), n);
      |r.0| <= n && ZeroFill(r.0, n) == Field(c, o, n) && r.1 == AtOffset(c, o + n)
  {
    var r := ReadSpec(c, AtOffset(c, o), n);
    var z := ZeroFill(r.0, n);
    var start := AtOffset(c, o).pos;
    assert o > |c| ==> r.0 == [];
    assert o <= |c| ==> start == o && |r.0| == (if o + n <= |c| then n else |c| - o);
    forall j | 0 <= j < n
      ensures z[j] == Field(c, o, n)[j]
    {
      assert Field(c, o, n)[j] == ByteAt(c, o + j);
      if j < |r.0| {
        assert z[..|r.0|][j] == r.0[j];
        assert r.0[j] == c[o + j];
      } else {
        assert z[j] == 0;
        assert o + j >= |c|;
      }
    }
  }

  /**
    The chunk scan starts right after the format chunk when its length is at
    least 16 and the file holds the fixed fields.
  */
  lemma ScanStartsAfterFormatChunk(c: seq<byte>)
    requires |c| >= FIXED_HEADER_SIZE && FixedFields(c).formatLength >= 16
    ensures HeaderEnd(c).pos == 20 + FixedFields(c).formatLength
    ensures !HeaderEnd(c).eof
  {
  }

  // ---------------------------------------------------------------------
  // The chunk scan

  /** What the scan loop leaves behind. */
  datatype ScanResult = ScanResult(found: bool, id: seq<byte>, size: u32, cur: Cursor)

  /** Unread bytes before the end: the measure that each skipped chunk decreases. */
  function Remaining(c: seq<byte>, cur: Cursor): nat
  {
    if cur.pos <= |c| then |c| - cur.pos else 0
  }

  /**
    The `while (Search != 0)` loop. Each round reads a 4-byte chunk id into
    the header's id field (a short read leaves the old bytes of that field in
    place) and a u32 length into a zeroed buffer. An id that equals `data`
    ends the scan successfully; otherwise the end-of-file indicator ends it
    without data; otherwise the chunk is skipped by its own length. The
    uint32_t length reaches `fseek`'s `long` offset unchanged, as it does with
    a 64-bit `long`; so every skip moves forward and the scan terminates.
  */
  function Scan(c: seq<byte>, cur: Cursor, id: seq<byte>): (r: ScanResult)
    requires |id| == 4
    ensures |r.id| == 4
    ensures r.found ==> r.id == DATA
    ensures !r.found ==> r.cur.eof && r.id != DATA
    ensures r.cur.pos >= cur.pos
    decreases Remaining(c, cur)
  {
    var (idRead, c1) := ReadSpec(c, cur, 4);
    var id' := idRead + id[|idRead|..];
    var (lenRead, c2) := ReadSpec(c, c1, 4);
    var size := LeU32(ZeroFill(lenRead, 4));
    if id' == DATA then ScanResult(true, id', size, c2)
    else if c2.eof then ScanResult(false, id', size, c2)
    else Scan(c, SeekSpec(c2, size), id')
  }

  /** The scan from where the header read leaves the file. */
  function ScanFile(c: seq<byte>): ScanResult
  {
    Scan(c, HeaderEnd(c), ZeroHeader.dataChunkHeader)
  }

  /** The header after the fixed fields have been read and the scan has run. */
  function ScannedHeader(c: seq<byte>): (h: WaveHeader)
    ensures h.channels == FixedFields(c).channels && h.bitsPerSample == FixedFields(c).bitsPerSample
  {
    var r := ScanFile(c);
    FixedFields(c).(dataChunkHeader := r.id, dataSize := r.size)
  }

  /** A read of n bytes that are all there returns them and leaves the indicator as it was. */
  lemma ReadFull(c: seq<byte>, cur: Cursor, n: nat)
    requires cur.pos + n <= |c|
    ensures ReadSpec(c, cur, n) == (c[cur.pos .. cur.pos + n], Cursor(cur.pos + n, cur.eof))
  {
    if cur.pos >= |c| {
      assert c[cur.pos .. cur.pos + n] == [];
    }
    assert Available(c, cur.pos, n) == c[cur.pos .. cur.pos + n];
  }

  /** The four bytes at offset i. */
  function Window(c: seq<byte>, i: nat): seq<byte>
    requires i + 4 <= |c|
  {
    c[i .. i + 4]
  }

  /**
    A chunk whose id is not `data` and whose 8 header bytes are all there is
    skipped by 8 plus its own length, and its id becomes the remembered id.
  */
  lemma ScanSkipsByOwnLength(c: seq<byte>, cur: Cursor, id: seq<byte>)
    requires |id| == 4 && !cur.eof && cur.pos + 8 <= |c|
    requires c[cur.pos .. cur.pos + 4] != DATA
    ensures Scan(c, cur, id) ==
      Scan(c, Cursor(cur.pos + 8 + LeU32(c[cur.pos + 4 .. cur.pos + 8]), false), c[cur.pos .. cur.pos + 4])
  {
    var p := cur.pos;
    var idRead, lenRead := c[p .. p + 4], c[p + 4 .. p + 8];
    assert ReadSpec(c, cur, 4) == (idRead, Cursor(p + 4, cur.eof)) by {
      ReadFull(c, cur, 4);
    }
    assert ReadSpec(c, Cursor(p + 4, cur.eof), 4) == (lenRead, Cursor(p + 8, cur.eof)) by {
      ReadFull(c, Cursor(p + 4, cur.eof), 4);
    }
    assert idRead + id[4..] == idRead;
    assert LeU32(ZeroFill(lenRead, 4)) == LeU32(lenRead) by { assert ZeroFill(lenRead, 4) == lenRead; }
    assert idRead != DATA;
    assert SeekSpec(Cursor(p + 8, cur.eof), LeU32(lenRead)) == Cursor(p + 8 + LeU32(lenRead), false);
  }

  /** A chunk whose id is `data` ends the scan with that chunk's length. */
  lemma ScanStopsAtData(c: seq<byte>, cur: Cursor, id: seq<byte>)
    requires |id| == 4 && cur.pos + 8 <= |c|
    requires c[cur.pos .. cur.pos + 4] == DATA
    ensures Scan(c, cur, id) ==
      ScanResult(true, DATA, LeU32(c[cur.pos + 4 .. cur.pos + 8]), Cursor(cur.pos + 8, cur.eof))
  {
    var p := cur.pos;
    var idRead, lenRead := c[p .. p + 4], c[p + 4 .. p + 8];
    assert ReadSpec(c, cur, 4) == (idRead, Cursor(p + 4, cur.eof)) by {
      ReadFull(c, cur, 4);
    }
    assert ReadSpec(c, Cursor(p + 4, cur.eof), 4) == (lenRead, Cursor(p + 8, cur.eof)) by {
      ReadFull(c, Cursor(p + 4, cur.eof), 4);
    }
    assert idRead + id[4..] == idRead;
    assert ZeroFill(lenRead, 4) == lenRead;
  }

  /**
    A round whose 8 header bytes are not all there, or that starts with the
    end-of-file indicator set, is the last one: the id read so far, completed
    by the stale bytes of the id field, decides alone whether a data chunk is
    reported, and the scan stops at end of file either way.
  */
  lemma ScanAtEndOfFile(c: seq<byte>, cur: Cursor, id: seq<byte>)
    requires |id| == 4 && (cur.eof || |c| < cur.pos + 8)
    ensures var got := Available(c, cur.pos, 4); var r := Scan(c, cur, id);
      r.found == (got + id[|got|..] == DATA) && r.id == got + id[|got|..] && r.cur.eof
  {
  }

  /**
    A non-data id at such a round: the scan ends without a data chunk, which
    the loaders report as WAVE_NO_DATA (WavLib.c) or WAVE_ERROR (WaveFormat.c).
  */
  lemma ScanAtEndOfFileWithoutData(c: seq<byte>, cur: Cursor, id: seq<byte>)
    requires |id| == 4 && (cur.eof || |c| < cur.pos + 8)
    requires Available(c, cur.pos, 4) + id[|Available(c, cur.pos, 4)|..] != DATA
    ensures !Scan(c, cur, id).found && Scan(c, cur, id).cur.eof
  {
    ScanAtEndOfFile(c, cur, id);
  }

  /**
    A file with fewer than 4 bytes after the format chunk has no data chunk:
    the id field starts zeroed, so a short id read cannot spell `data`.
  */
  lemma NothingAfterFormatChunk(c: seq<byte>)
    requires |c| < HeaderEnd(c).pos + 4
    ensures !ScanFile(c).found && ScanFile(c).cur.eof
  {
    var cur, id := HeaderEnd(c), ZeroHeader.dataChunkHeader;
    var got := Available(c, cur.pos, 4);
    ScanAtEndOfFile(c, cur, id);
    assert |got| < 4;
    assert (got + id[|got|..])[3] == 0;
  }

  /** A read sees only the bytes at and after its position. */
  lemma ReadCongruent(c: seq<byte>, d: seq<byte>, cur: Cursor, n: nat)
    requires |c| == |d|
    requires forall i :: cur.pos <= i < |c| ==> c[i] == d[i]
    ensures ReadSpec(c, cur, n) == ReadSpec(d, cur, n)
  {
    var a, b := Available(c, cur.pos, n), Available(d, cur.pos, n);
    assert |a| == |b|;
    forall i | 0 <= i < |a|
      ensures a[i] == b[i]
    {
      assert a[i] == c[cur.pos + i] && b[i] == d[cur.pos + i];
    }
    assert a == b;
  }

  /** The scan depends only on the bytes from its starting position on. */
  lemma {:induction false} ScanCongruent(c: seq<byte>, d: seq<byte>, cur: Cursor, id: seq<byte>)
    requires |id| == 4 && |c| == |d|
    requires forall i :: cur.pos <= i < |c| ==> c[i] == d[i]
    ensures Scan(c, cur, id) == Scan(d, cur, id)
    decreases Remaining(c, cur)
  {
    var (idRead, c1) := ReadSpec(c, cur, 4);
    ReadCongruent(c, d, cur, 4);
    var (lenRead, c2) := ReadSpec(c, c1, 4);
    ReadCongruent(c, d, c1, 4);
    var id' := idRead + id[|idRead|..];
    var size := LeU32(ZeroFill(lenRead, 4));
    if id' != DATA && !c2.eof {
      ScanCongruent(c, d, SeekSpec(c2, size), id');
    }
  }

  /** Two files that differ at most in the marker bytes RIFF, WAVE and `fmt `. */
  predicate SameButMarkers(c: seq<byte>, d: seq<byte>)
  {
    |c| == |d| && forall i :: 0 <= i < |c| && !(i < 4 || 8 <= i < 16) ==> c[i] == d[i]
  }

  /**
    No marker is compared with anything: files that differ only in their
    markers give the same format fields, the same scan start and the same
    scan outcome.
  */
  lemma MarkersIgnored(c: seq<byte>, d: seq<byte>)
    requires SameButMarkers(c, d)
    ensures FixedFields(d) == FixedFields(c).(riff := Field(d, 0, 4), wave := Field(d, 8, 4), formatChunkMarker := Field(d, 12, 4))
    ensures HeaderEnd(d) == HeaderEnd(c)
    ensures ScanFile(d) == ScanFile(c)
  {
    FieldsAgree(c, d, 4, 4);
    FieldsAgree(c, d, 16, 4);
    FieldsAgree(c, d, 20, 2);
    FieldsAgree(c, d, 22, 2);
    FieldsAgree(c, d, 24, 4);
    FieldsAgree(c, d, 28, 4);
    FieldsAgree(c, d, 32, 2);
    FieldsAgree(c, d, 34, 2);
    var cur := HeaderEnd(c);
    assert HeaderEnd(d) == cur;
    assert cur.pos >= if |c| < FIXED_HEADER_SIZE then |c| else FIXED_HEADER_SIZE;
    ScanCongruent(c, d, cur, ZeroHeader.dataChunkHeader);
  }

  /** A field outside the markers reads the same in both files. */
  lemma FieldsAgree(c: seq<byte>, d: seq<byte>, o: nat, n: nat)
    requires SameButMarkers(c, d) && ((o == 4 && n == 4) || o >= 16)
    ensures Field(c, o, n) == Field(d, o, n)
  {
    forall j | 0 <= j < n
      ensures Field(c, o, n)[j] == Field(d, o, n)[j]
    {
      assert Field(c, o, n)[j] == ByteAt(c, o + j) && Field(d, o, n)[j] == ByteAt(d, o + j);
    }
  }

  /**
    A format length below 16 makes the uint32_t skip wrap to more than 2^32 - 16
    bytes: with a 64-bit `long` offset the scan starts past the end of any
    file below 4 GiB and finds no data.
  */
  lemma ShortFormatLengthFindsNoData(c: seq<byte>)
    requires |c| < TWO_32 && FixedFields(c).formatLength < 16
    ensures HeaderEnd(c).pos > |c|
    ensures !ScanFile(c).found
  {
    var cur := HeaderEnd(c);
    var id := ZeroHeader.dataChunkHeader;
    assert Wrap32(FixedFields(c).formatLength - 16) == FixedFields(c).formatLength - 16 + TWO_32;
    var (idRead, c1) := ReadSpec(c, cur, 4);
    assert idRead == [];
    assert idRead + id[0..] == id;
    var (lenRead, c2) := ReadSpec(c, c1, 4);
    assert c2.eof;
  }

  /** The file of the stale-id example: a chunk `xata` of length 0, then one byte `d`. */
  const STALE_ID_FILE: seq<byte> := [0x78, 0x61, 0x74, 0x61, 0, 0, 0, 0, 0x64]

  /** No four consecutive bytes of that file spell `data`. */
  lemma StaleIdFileHasNoDataId()
    ensures forall i :: 0 <= i <= |STALE_ID_FILE| - 4 ==> Window(STALE_ID_FILE, i) != DATA
  {
    var c := STALE_ID_FILE;
    forall i | 0 <= i <= |c| - 4
      ensures Window(c, i) != DATA
    {
      assert Window(c, i)[0] == c[i];
      assert Window(c, i)[1] == c[i + 1];
    }
  }

  /**
    The id field is not cleared between rounds: in that file the single
    trailing `d` completes the stale `ata` into `data`, and the scan reports
    a data chunk of length 0.
  */
  lemma StaleChunkIdExample()
    ensures Scan(STALE_ID_FILE, Cursor(0, false), [0, 0, 0, 0]) == ScanResult(true, DATA, 0, Cursor(9, true))
  {
    var xata := STALE_ID_FILE[0 .. 4];
    StaleFirstRound(xata);
    StaleIdCompleted(xata);
  }

  /** The first round of the example: the chunk `xata` of length 0 is skipped and its id remembered. */
  lemma StaleFirstRound(xata: seq<byte>)
    requires xata == STALE_ID_FILE[0 .. 4]
    ensures xata == [0x78, 0x61, 0x74, 0x61]
    ensures Scan(STALE_ID_FILE, Cursor(0, false), [0, 0, 0, 0]) == Scan(STALE_ID_FILE, Cursor(8, false), xata)
  {
    var c := STALE_ID_FILE;
    assert xata == [0x78, 0x61, 0x74, 0x61];
    assert LeU32(c[4 .. 8]) == 0 by { assert c[4 .. 8] == [0, 0, 0, 0]; }
    ScanSkipsByOwnLength(c, Cursor(0, false), [0, 0, 0, 0]);
  }

  /** The second round of the example: one byte `d` read over the stale id `xata`, then end of file. */
  lemma StaleIdCompleted(xata: seq<byte>)
    requires xata == [0x78, 0x61, 0x74, 0x61]
    ensures Scan(STALE_ID_FILE, Cursor(8, false), xata) == ScanResult(true, DATA, 0, Cursor(9, true))
  {
    var c := STALE_ID_FILE;
    var cur := Cursor(8, false);
    assert ReadSpec(c, cur, 4) == ([0x64], Cursor(9, true)) by {
      assert Available(c, 8, 4) == [0x64];
    }
    assert ReadSpec(c, Cursor(9, true), 4) == ([], Cursor(9, true));
    assert [0x64] + xata[1..] == DATA;
    assert LeU32(ZeroFill([], 4)) == 0 by {
      assert ZeroFill([], 4) == [0, 0, 0, 0];
    }
  }

  // ---------------------------------------------------------------------
  // The imperative reader

  /** `memset(Buffer, 0, ...)` followed by `fread(Buffer, 1, n, File)`: one header field. */
  method ReadField(file: File, ghost o: nat, n: nat) returns (b: seq<byte>)
    requires n > 0 && file.State() == AtOffset(file.contents, o)
    modifies file
    ensures b == Field(file.contents, o, n)
    ensures file.State() == AtOffset(file.contents, o + n)
  {
    var got := file.Read(n);
    ReadAtOffset(file.contents, o, n);
    b := ZeroFill(got, n);
  }

  /** Fills the header field by field from the file, then skips the extra format bytes. */
  method ReadHeader(file: File) returns (h: WaveHeader)
    requires file.State() == Cursor(0, false)
    modifies file
    ensures h == FixedFields(file.contents)
    ensures file.State() == HeaderEnd(file.contents)
  {
    var riff := ReadField(file, 0, 4);
    var size := ReadField(file, 4, 4);
    var wave := ReadField(file, 8, 4);
    var marker := ReadField(file, 12, 4);
    var formatLength := ReadField(file, 16, 4);
    h := ZeroHeader.(riff := riff, sizeInBytes := LeU32(size), wave := wave, formatChunkMarker := marker,
      formatLength := LeU32(formatLength));
    h := ReadFormatFields(file, h);

    var formatSize := Wrap32(h.formatLength - 16);
    if formatSize != 0 {
      file.Seek(formatSize);
    }
  }

  /** The reads of the 16 format bytes at offsets 20 .. 35, field by field. */
  method ReadFormatFields(file: File, h: WaveHeader) returns (h': WaveHeader)
    requires file.State() == AtOffset(file.contents, 20)
    modifies file
    ensures var f := FixedFields(file.contents);
      h' == h.(formatType := f.formatType, channels := f.channels, sampleRate := f.sampleRate,
        byteRate := f.byteRate, blockAlignment := f.blockAlignment, bitsPerSample := f.bitsPerSample)
    ensures file.State() == AtOffset(file.contents, FIXED_HEADER_SIZE)
  {
    var formatType := ReadField(file, 20, 2);
    var channels := ReadField(file, 22, 2);
    var sampleRate := ReadField(file, 24, 4);
    var byteRate := ReadField(file, 28, 4);
    var blockAlignment := ReadField(file, 32, 2);
    var bitsPerSample := ReadField(file, 34, 2);
    h' := h.(formatType := LeU16(formatType), channels := LeU16(channels), sampleRate := LeU32(sampleRate),
      byteRate := LeU32(byteRate), blockAlignment := LeU16(blockAlignment), bitsPerSample := LeU16(bitsPerSample));
  }

  /**
    The chunk-scan loop. On return `found` tells whether an id equal to `data`
    was read, and the header holds the last id and length that were read.
  */
  method ScanChunks(file: File, h0: WaveHeader) returns (found: bool, h: WaveHeader)
    requires |h0.dataChunkHeader| == 4
    modifies file
    ensures var r := Scan(file.contents, old(file.State()), h0.dataChunkHeader);
      found == r.found && h == h0.(dataChunkHeader := r.id, dataSize := r.size) && file.State() == r.cur
  {
    ghost var c := file.contents;
    ghost var target := Scan(c, file.State(), h0.dataChunkHeader);
    h := h0;
    found := false;
    var search := true;
    while search
      invariant file.contents == c
      invariant |h.dataChunkHeader| == 4
      invariant h == h0.(dataChunkHeader := h.dataChunkHeader, dataSize := h.dataSize)
      invariant search ==> !found && Scan(c, file.State(), h.dataChunkHeader) == target
      invariant !search ==>
        found == target.found && h.dataChunkHeader == target.id && h.dataSize == target.size && file.State() == target.cur
      decreases search, Remaining(c, file.State())
    {
      var idRead := file.Read(4);
      h := h.(dataChunkHeader := idRead + h.dataChunkHeader[|idRead|..]);
      var lenRead := file.Read(4);
      h := h.(dataSize := LeU32(ZeroFill(lenRead, 4)));
      // strcmp of the NUL-terminated copy with "data": equal exactly when the four bytes are d, a, t, a
      if h.dataChunkHeader == DATA {
        found := true;
        search := false;
      } else if file.eof {
        search := false;
      } else {
        file.Seek(h.dataSize);
      }
    }
  }
}
