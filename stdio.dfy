/**
  The part of C's stdio that the reader uses, over a file whose contents are a
  byte sequence: `fread(buf, 1, n, f)`, `fseek(f, k, SEEK_CUR)` and `feof(f)`.
  A read returns the bytes that are there and sets the end-of-file indicator
  only when it comes up short; a relative seek may move past the end and
  clears the indicator.
*/
module Stdio {
  import opened Bytes

  /** The stream position and the end-of-file indicator of an open FILE. */
  datatype Cursor = Cursor(pos: nat, eof: bool)

  /** The bytes that `fread` of n bytes obtains at position pos. */
  function Available(contents: seq<byte>, pos: nat, n: nat): (r: seq<byte>)
    ensures |r| <= n
    ensures |r| == n <==> n == 0 || pos + n <= |contents|
    ensures pos >= |contents| ==> r == []
    ensures pos < |contents| ==> |r| == (if pos + n <= |contents| then n else |contents| - pos)
    ensures forall i :: 0 <= i < |r| ==> r[i] == contents[pos + i]
  {
    if pos >= |contents| then []
    else if pos + n <= |contents| then contents[pos..pos + n]
    else contents[pos..]
  }

  /** `fread` of n bytes: the bytes read, and the cursor afterwards. */
  function ReadSpec(contents: seq<byte>, c: Cursor, n: nat): (r: (seq<byte>, Cursor))
    ensures |r.0| <= n
    ensures r.1.pos == c.pos + |r.0|
    ensures r.1.eof == (c.eof || |r.0| < n)
    ensures !r.1.eof && n > 0 ==> c.pos + n <= |contents|
  {
    var bytes := Available(contents, c.pos, n);
    (bytes, Cursor(c.pos + |bytes|, c.eof || |bytes| < n))
  }

  /**
    `fseek(f, k, SEEK_CUR)` with a non-negative offset: the callers pass a
    uint32_t, which a 64-bit `long` holds unchanged.
  */
  function SeekSpec(c: Cursor, k: nat): (r: Cursor)
    ensures r.pos == c.pos + k && !r.eof
  {
    Cursor(c.pos + k, false)
  }

  /**
    A seek to or past the end of the file followed by a read: the read gets
    nothing and sets the end-of-file indicator again, which is how the chunk
    scan stops after skipping past the end.
  */
  lemma SeekPastEnd(contents: seq<byte>, c: Cursor, k: nat, n: nat)
    requires c.pos + k >= |contents| && n > 0
    ensures ReadSpec(contents, SeekSpec(c, k), n) == ([], Cursor(c.pos + k, true))
  {
    assert Available(contents, c.pos + k, n) == [];
  }

  /**
    A buffer of n bytes cleared by `memset` and then filled by a read that
    obtained `got`: the bytes that were not read stay zero.
  */
  function ZeroFill(got: seq<byte>, n: nat): (r: seq<byte>)
    requires |got| <= n
    ensures |r| == n && r[..|got|] == got
    ensures forall i :: |got| <= i < n ==> r[i] == 0
  {
    got + seq(n - |got|, _ => 0)
  }

  /** `fopen`'s result: a file that may be missing. */
  datatype Option<T> = None | Some(value: T)

  /**
    `fread` of n bytes into a fresh buffer of n bytes: the bytes read, then
    zeros where the read came up short (that tail is left uninitialised by
    `malloc`; the model fixes it to zero).
  */
  function ReadInto(contents: seq<byte>, c: Cursor, n: nat): (b: seq<byte>)
    ensures |b| == n
    ensures forall i :: 0 <= i < n && c.pos + i < |contents| ==> b[i] == contents[c.pos + i]
    ensures forall i :: 0 <= i < n && c.pos + i >= |contents| ==> b[i] == 0
  {
    var got := ReadSpec(contents, c, n).0;
    assert forall i :: 0 <= i < |got| ==> got[i] == contents[c.pos + i];
    ZeroFill(got, n)
  }

  /** A read that stays inside the file returns exactly the bytes there. */
  lemma ReadIntoInside(contents: seq<byte>, c: Cursor, n: nat)
    requires c.pos + n <= |contents|
    ensures ReadInto(contents, c, n) == contents[c.pos .. c.pos + n]
  {
    var b := ReadInto(contents, c, n);
    assert forall i :: 0 <= i < n ==> b[i] == contents[c.pos .. c.pos + n][i];
  }

  /** An open file, read sequentially. */
  class File {
    const contents: seq<byte>
    var pos: nat
    var eof: bool

    /** `fopen(name, "rb")` of a file that exists. */
    constructor Open(contents: seq<byte>)
      ensures this.contents == contents && pos == 0 && !eof
    {
      this.contents := contents;
      pos := 0;
      eof := false;
    }

    function State(): Cursor
      reads this
    {
      Cursor(pos, eof)
    }

    /** `fread(buf, 1, n, this)`: returns the bytes actually read. */
    method Read(n: nat) returns (bytes: seq<byte>)
      modifies this
      ensures (bytes, State()) == ReadSpec(contents, old(State()), n)
    {
      bytes := Available(contents, pos, n);
      pos := pos + |bytes|;
      if |bytes| < n {
        eof := true;
      }
    }

    /** `fseek(this, k, SEEK_CUR)`. */
    method Seek(k: nat)
      modifies this
      ensures State() == SeekSpec(old(State()), k)
    {
      pos := pos + k;
      eof := false;
    }
  }
}
