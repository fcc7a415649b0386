/** The seekable byte buffer the decoder reads from, and the chunked
    delimiter scan (`read_until`) built on it. */
module Stream {
  import opened Common

  /** What `read(n)` on the buffer returns and where it leaves the cursor:
      n bytes, fewer only when the data runs out; a cursor at or beyond the
      end reads nothing and stays put. */
  function ReadAt(data: seq<byte>, pos: nat, n: nat): (r: (seq<byte>, nat))
    ensures r.1 == pos + |r.0|
  {
    if pos < |data| then
      var end := pos + Min(n, |data| - pos);
      (data[pos..end], end)
    else ([], pos)
  }

  /** A read returns the next bytes of the data, as many as asked for unless
      the data runs out first, and nothing once the cursor is at or past the end. */
  lemma ReadAtReturns(data: seq<byte>, pos: nat, n: nat)
    ensures var (chunk, next) := ReadAt(data, pos, n);
      && |chunk| == (if pos < |data| then Min(n, |data| - pos) else 0)
      && (chunk != [] ==> next <= |data| && chunk == data[pos..next])
  {
  }

  /** A read that fits in the data returns exactly the bytes asked for. */
  lemma ReadAtWithin(data: seq<byte>, pos: nat, n: nat)
    requires pos + n <= |data|
    ensures ReadAt(data, pos, n) == (data[pos..pos + n], pos + n)
  {
    if pos < |data| {
      assert Min(n, |data| - pos) == n;
    } else {
      assert data[pos..pos + n] == [];
    }
  }

  /** The in-memory reader over the flattened image: fixed data, movable cursor. */
  class ByteStream {
    const data: seq<byte>
    var pos: nat

    constructor (data: seq<byte>)
      ensures this.data == data && pos == 0
    {
      this.data := data;
      pos := 0;
    }

    /** `read(n)` for n >= 0. */
    method Read(n: nat) returns (chunk: seq<byte>)
      modifies this
      ensures (chunk, pos) == ReadAt(data, old(pos), n)
    {
      if pos < |data| {
        var end := pos + Min(n, |data| - pos);
        chunk := data[pos..end];
        pos := end;
      } else {
        chunk := [];
      }
    }

    /** `read(-1)`: everything from the cursor to the end. */
    method ReadToEnd() returns (rest: seq<byte>)
      modifies this
      ensures (rest, pos) == ReadAt(data, old(pos), |data|)
      ensures old(pos) <= |data| ==> rest == data[old(pos)..] && pos == |data|
    {
      if pos < |data| {
        assert Min(|data|, |data| - pos) == |data| - pos;
        assert data[pos..pos + (|data| - pos)] == data[pos..];
        assert ReadAt(data, pos, |data|).1 == |data|;
        assert ReadAt(data, pos, |data|) == (data[pos..], |data|);
        rest := data[pos..];
        pos := |data|;
      } else {
        rest := [];
      }
    }

    /** `seek(offset)`: a negative offset raises, anything else (even past the end) is accepted. */
    method Seek(offset: int) returns (ok: bool)
      modifies this
      ensures ok <==> offset >= 0
      ensures pos == if ok then offset else old(pos)
    {
      ok := offset >= 0;
      if ok {
        pos := offset;
      }
    }
  }

  /** `read_until(delimiter)` from cursor `pos`: read `|delimiter|`-sized chunks
      until one equals the delimiter, returning the chunks before it and the
      cursor just past it. An empty delimiter matches the empty first read at
      once. A chunk cut short by the end of the data is not the delimiter, and
      every read after it returns no bytes, which never equal a non-empty
      delimiter, so there the source never returns a result (its join keeps
      collecting empty chunks until memory runs out): that outcome is
      `Failure(NoDelimiter)`. */
  function ScanUntil(data: seq<byte>, pos: nat, delimiter: seq<byte>): Result<(seq<byte>, nat)>
    decreases |data| - pos
  {
    var n := |delimiter|;
    if n == 0 then Success(([], pos))
    else if pos + n > |data| then Failure(NoDelimiter)
    else if data[pos..pos + n] == delimiter then Success(([], pos + n))
    else
      var rest := ScanUntil(data, pos + n, delimiter);
      if rest.Success? then Success((data[pos..pos + n] + rest.value.0, rest.value.1)) else rest
  }

  /** The len bytes of data from pos are whole delimiter-sized chunks, none of
      them equal to the delimiter. */
  ghost predicate ChunksAvoid(data: seq<byte>, pos: nat, len: nat, delimiter: seq<byte>)
    requires |delimiter| > 0
    decreases len
  {
    && pos + len <= |data|
    && (len == 0
        || (&& |delimiter| <= len
            && data[pos..pos + |delimiter|] != delimiter
            && ChunksAvoid(data, pos + |delimiter|, len - |delimiter|, delimiter)))
  }

  /** Cutting the data into delimiter-sized chunks from pos never yields the
      delimiter before the data runs short. */
  ghost predicate NeverMeets(data: seq<byte>, pos: nat, delimiter: seq<byte>)
    requires |delimiter| > 0
    decreases |data| - pos
  {
    pos + |delimiter| > |data|
    || (data[pos..pos + |delimiter|] != delimiter && NeverMeets(data, pos + |delimiter|, delimiter))
  }

  /** Where a successful scan stops: a delimiter that starts a whole number of
      chunks after the cursor, none of the chunks before it being the delimiter. */
  lemma {:induction false} ScanUntilStopsAt(data: seq<byte>, pos: nat, delimiter: seq<byte>, s: seq<byte>, end: nat)
    requires |delimiter| > 0
    requires ScanUntil(data, pos, delimiter) == Success((s, end))
    ensures end == pos + |s| + |delimiter| <= |data| && data[pos + |s|..end] == delimiter
    ensures ChunksAvoid(data, pos, |s|, delimiter)
    decreases |data| - pos
  {
    var n := |delimiter|;
    if pos + n <= |data| && data[pos..pos + n] != delimiter {
      var rest := ScanUntil(data, pos + n, delimiter);
      assert rest.Success? && |s| == n + |rest.value.0| && end == rest.value.1;
      ScanUntilStopsAt(data, pos + n, delimiter, rest.value.0, end);
    }
  }

  /** The scan stops at the first chunk equal to the delimiter: after a run of
      len bytes whose chunks avoid it, a delimiter ends the scan with that run. */
  lemma {:induction false} ScanUntilStopsAtFirst(data: seq<byte>, pos: nat, delimiter: seq<byte>, len: nat)
    requires |delimiter| > 0 && ChunksAvoid(data, pos, len, delimiter)
    requires pos + len + |delimiter| <= |data| && data[pos + len..pos + len + |delimiter|] == delimiter
    ensures ScanUntil(data, pos, delimiter) == Success((data[pos..pos + len], pos + len + |delimiter|))
    decreases len
  {
    var n := |delimiter|;
    if len == 0 {
      assert data[pos..pos] == [];
    } else {
      ScanUntilStopsAtFirst(data, pos + n, delimiter, len - n);
      assert data[pos..pos + n] + data[pos + n..pos + len] == data[pos..pos + len];
    }
  }

  /** What a successful scan returns: the bytes from the cursor up to where it
      stops; the delimiter is consumed but not returned. */
  lemma ScanUntilFound(data: seq<byte>, pos: nat, delimiter: seq<byte>, s: seq<byte>, end: nat)
    requires |delimiter| > 0
    requires ScanUntil(data, pos, delimiter) == Success((s, end))
    ensures end == pos + |s| + |delimiter| <= |data|
    ensures data[pos..pos + |s|] == s && data[pos + |s|..end] == delimiter
  {
    ScanUntilStopsAt(data, pos, delimiter, s, end);
    ScanUntilStopsAtFirst(data, pos, delimiter, |s|);
  }

  /** The scan fails exactly when no chunk from the cursor on is the delimiter,
      and then only by running off the end. */
  lemma {:induction false} ScanUntilMissing(data: seq<byte>, pos: nat, delimiter: seq<byte>)
    requires |delimiter| > 0
    ensures ScanUntil(data, pos, delimiter).Failure? <==> NeverMeets(data, pos, delimiter)
    ensures ScanUntil(data, pos, delimiter).Failure? ==> ScanUntil(data, pos, delimiter).error == NoDelimiter
    decreases |data| - pos
  {
    var n := |delimiter|;
    if pos + n <= |data| && data[pos..pos + n] != delimiter {
      ScanUntilMissing(data, pos + n, delimiter);
    }
  }

  /** A run scanned with the one-byte NUL delimiter contains no NUL byte, and conversely. */
  lemma {:induction false} ChunksAvoidNul(data: seq<byte>, pos: nat, len: nat)
    ensures ChunksAvoid(data, pos, len, [0]) <==> pos + len <= |data| && forall i :: pos <= i < pos + len ==> data[i] != 0
    decreases len
  {
    if len > 0 && pos + len <= |data| {
      ChunksAvoidNul(data, pos + 1, len - 1);
      assert data[pos..pos + 1] == [data[pos]];
    }
  }
}
