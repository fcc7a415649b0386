/** The table walk of `parse` as a function of the flattened image: find the
    header, read the pointer array, decode every entry it points to, fold, and
    relocate into named groups. */
module Table {
  import opened Common
  import opened LittleEndian
  import opened Stream
  import opened BinaryInfo
  import opened Entries
  import opened Assemble

  /** `read_until(BI_MAGIC)` from offset 0, then `read_until(BI_END)`: the bytes
      between the two markers, both scans in 4-byte chunks. */
  function FindHeader(data: seq<byte>): Result<seq<byte>>
  {
    match ScanUntil(data, 0, BI_MAGIC)
    case Failure(e) => Failure(e)
    case Success((_, afterMagic)) =>
      match ScanUntil(data, afterMagic, BI_END)
      case Failure(e) => Failure(e)
      case Success((header, _)) => Success(header)
  }

  /** `struct.unpack("I" * n, data)`: the little-endian words, in order. */
  function Words(b: seq<byte>): (ws: seq<nat>)
    requires |b| % 4 == 0
    ensures |ws| == |b| / 4
    ensures forall i :: 0 <= i < |ws| ==> ws[i] == U32(b[4 * i..4 * i + 4])
    decreases |b|
  {
    if b == [] then []
    else
      var rest := Words(b[4..]);
      assert forall i :: 1 <= i < |b| / 4 ==> b[4 * i..4 * i + 4] == b[4..][4 * (i - 1)..4 * (i - 1) + 4];
      [U32(b[..4])] + rest
  }

  /** One turn of the walk: seek to the pointer's offset, then `parse_entry`. */
  function EntryAt(data: seq<byte>, pointer: nat): Result<Option<Entry>>
  {
    var offset := AddrToBinOffset(pointer);
    if offset < 0 then Failure(NegativeSeek)
    else
      match ParseEntryAt(data, offset)
      case Failure(e) => Failure(e)
      case Success((entry, _)) => Success(entry)
  }

  /** The entries the pointers yield, in pointer order; the first pointer
      whose decoding raises (or hangs) ends the walk with that outcome. */
  function DecodeAll(data: seq<byte>, pointers: seq<nat>): Result<seq<Entry>>
  {
    if pointers == [] then Success([])
    else
      match DecodeAll(data, pointers[..|pointers| - 1])
      case Failure(e) => Failure(e)
      case Success(es) =>
        match EntryAt(data, pointers[|pointers| - 1])
        case Failure(e) => Failure(e)
        case Success(None) => Success(es)
        case Success(Some(entry)) => Success(es + [entry])
  }

  /** The rest of `parse` once the pointers are unpacked: decode the entries
      they point to, fold them, and relocate into named groups. */
  function WalkTable(data: seq<byte>, pointers: seq<nat>): Result<Option<Parsed>>
  {
    match DecodeAll(data, pointers)
    case Failure(e) => Failure(e)
    case Success(es) => Success(Some(AssignGroups(FoldAll(es))))
  }

  /** `parse` from the unpacked header words on: seek to the array, read
      `end - start` bytes, unpack them as words, walk them, and assemble. */
  function ReadTable(data: seq<byte>, entriesStart: nat, entriesEnd: nat): Result<Option<Parsed>>
  {
    var start := AddrToBinOffset(entriesStart);
    var length := AddrToBinOffset(entriesEnd) - start;
    if start < 0 then Failure(NegativeSeek)
    else if length < -1 then Failure(BadReadLength)
    else if length == -1 then Success(None)  // read(-1) reads to the end; no length equals -1
    else
      var pointerBytes := ReadAt(data, start, length).0;
      if |pointerBytes| != length then Success(None)
      else if length % 4 != 0 then Failure(ShortUnpack)
      else WalkTable(data, Words(pointerBytes))
  }

  /** `PyDecl.parse` on the flattened image: `Success(None)` is its `None`
      return, `Failure` an exception or a scan that never returns a result. */
  function ParseImage(data: seq<byte>): Result<Option<Parsed>>
  {
    match FindHeader(data)
    case Failure(e) => Failure(e)
    case Success(header) => ReadHeader(data, header)
  }

  /** `parse` after the scans: a header of other than 12 bytes gives `None`;
      otherwise its first two words delimit the pointer array (the third, the
      mapping table, is unused). */
  function ReadHeader(data: seq<byte>, header: seq<byte>): Result<Option<Parsed>>
  {
    if |header| != 12 then Success(None)
    else ReadTable(data, U32(header[0..4]), U32(header[4..8]))
  }

  /** The header is the run of chunks between the first 4-aligned BI_MAGIC,
      found at `magicAt`, and the first 4-aligned BI_END after it. */
  lemma HeaderLocated(data: seq<byte>, magicAt: nat, headerLen: nat)
    requires ChunksAvoid(data, 0, magicAt, BI_MAGIC) && magicAt + 4 <= |data| && data[magicAt..magicAt + 4] == BI_MAGIC
    requires ChunksAvoid(data, magicAt + 4, headerLen, BI_END)
    requires magicAt + headerLen + 8 <= |data| && data[magicAt + headerLen + 4..magicAt + headerLen + 8] == BI_END
    ensures FindHeader(data) == Success(data[magicAt + 4..magicAt + 4 + headerLen])
  {
    ScanUntilStopsAtFirst(data, 0, BI_MAGIC, magicAt);
    ScanUntilStopsAtFirst(data, magicAt + 4, BI_END, headerLen);
  }

  /** With the header located, `parse` goes on with the bytes between the markers. */
  lemma ParseImageLayout(data: seq<byte>, magicAt: nat, headerLen: nat)
    requires ChunksAvoid(data, 0, magicAt, BI_MAGIC) && magicAt + 4 <= |data| && data[magicAt..magicAt + 4] == BI_MAGIC
    requires ChunksAvoid(data, magicAt + 4, headerLen, BI_END)
    requires magicAt + headerLen + 8 <= |data| && data[magicAt + headerLen + 4..magicAt + headerLen + 8] == BI_END
    ensures ParseImage(data) == ReadHeader(data, data[magicAt + 4..magicAt + 4 + headerLen])
  {
    HeaderLocated(data, magicAt, headerLen);
  }

  /** An image in which no 4-aligned chunk is BI_MAGIC never yields a result:
      the source's first scan never returns a result. */
  lemma NoMagicNoResult(data: seq<byte>)
    requires NeverMeets(data, 0, BI_MAGIC)
    ensures ParseImage(data) == Failure(NoDelimiter)
  {
    ScanUntilMissing(data, 0, BI_MAGIC);
  }

  /** The failure and `None` cases of the pointer-array read. */
  lemma ReadTableRejects(data: seq<byte>, entriesStart: nat, entriesEnd: nat)
    ensures entriesStart < FLASH_START_ADDR ==> ReadTable(data, entriesStart, entriesEnd) == Failure(NegativeSeek)
    ensures entriesStart >= FLASH_START_ADDR && entriesEnd + 1 < entriesStart ==>
      ReadTable(data, entriesStart, entriesEnd) == Failure(BadReadLength)
    ensures entriesStart >= FLASH_START_ADDR && entriesEnd + 1 == entriesStart ==>
      ReadTable(data, entriesStart, entriesEnd) == Success(None)
    ensures entriesStart >= FLASH_START_ADDR && entriesStart < entriesEnd && AddrToBinOffset(entriesEnd) > |data| ==>
      ReadTable(data, entriesStart, entriesEnd) == Success(None)
    ensures entriesStart >= FLASH_START_ADDR && entriesStart <= entriesEnd && AddrToBinOffset(entriesEnd) <= |data|
            && (entriesEnd - entriesStart) % 4 != 0 ==>
      ReadTable(data, entriesStart, entriesEnd) == Failure(ShortUnpack)
    ensures entriesStart >= FLASH_START_ADDR && entriesStart == entriesEnd ==>
      ReadTable(data, entriesStart, entriesEnd) == Success(Some(map[]))
  {
    if entriesStart >= FLASH_START_ADDR && entriesStart == entriesEnd {
      var start := AddrToBinOffset(entriesStart);
      assert ReadAt(data, start, 0).0 == [];
      assert Words([]) == [];
      assert DecodeAll(data, []) == Success([]);
      assert AssignGroups(FoldAll([])) == map[];
    }
  }

  /** The words of a 4-aligned run of the data are read from it in order. */
  lemma WordsAt(data: seq<byte>, start: nat, len: nat)
    requires start + len <= |data| && len % 4 == 0
    ensures var ws := Words(data[start..start + len]);
      && |ws| == len / 4
      && forall i :: 0 <= i < |ws| ==> ws[i] == U32(data[start + 4 * i..start + 4 * i + 4])
  {
    var b := data[start..start + len];
    assert len == 4 * (len / 4);
    forall i | 0 <= i < len / 4
      ensures b[4 * i..4 * i + 4] == data[start + 4 * i..start + 4 * i + 4]
    {
      assert 4 * (i + 1) <= 4 * (len / 4) == len;
      var w := b[4 * i..4 * i + 4];
      assert forall j :: 0 <= j < 4 ==> w[j] == data[start + 4 * i + j];
    }
  }

  /** A pointer array that is present and whole is walked pointer by pointer:
      `(end - start) / 4` little-endian words, read from the array in order. */
  lemma ReadTableWalks(data: seq<byte>, entriesStart: nat, entriesEnd: nat)
    requires FLASH_START_ADDR <= entriesStart <= entriesEnd && AddrToBinOffset(entriesEnd) <= |data|
    requires (entriesEnd - entriesStart) % 4 == 0
    ensures var start := AddrToBinOffset(entriesStart);
      var pointers := Words(data[start..start + (entriesEnd - entriesStart)]);
      ReadTable(data, entriesStart, entriesEnd) == WalkTable(data, pointers)
  {
    var start := AddrToBinOffset(entriesStart);
    var len := entriesEnd - entriesStart;
    assert AddrToBinOffset(entriesEnd) - start == len;
    ReadAtWithin(data, start, len);
  }

  /** The walk yields a result exactly when no pointer's entry raises or hangs. */
  lemma {:induction false} DecodeAllSucceeds(data: seq<byte>, pointers: seq<nat>)
    ensures DecodeAll(data, pointers).Success? <==> forall i :: 0 <= i < |pointers| ==> EntryAt(data, pointers[i]).Success?
  {
    if pointers != [] {
      var init := pointers[..|pointers| - 1];
      DecodeAllSucceeds(data, init);
      assert forall i :: 0 <= i < |init| ==> init[i] == pointers[i];
    }
  }

  /** Once a prefix of the walk has failed, the whole walk fails the same way. */
  lemma {:induction false} DecodeAllFailurePersists(data: seq<byte>, pointers: seq<nat>, n: nat)
    requires n <= |pointers| && DecodeAll(data, pointers[..n]).Failure?
    ensures DecodeAll(data, pointers) == DecodeAll(data, pointers[..n])
    decreases |pointers| - n
  {
    if n < |pointers| {
      assert pointers[..n + 1][..n] == pointers[..n];
      DecodeAllFailurePersists(data, pointers, n + 1);
    } else {
      assert pointers[..n] == pointers;
    }
  }

  /** Every entry the walk yields is well keyed. */
  lemma {:induction false} DecodeAllWellKeyed(data: seq<byte>, pointers: seq<nat>, es: seq<Entry>)
    requires DecodeAll(data, pointers) == Success(es)
    ensures forall i :: 0 <= i < |es| ==> WellKeyed(es[i])
  {
    if pointers != [] {
      var init := pointers[..|pointers| - 1];
      var last := pointers[|pointers| - 1];
      var es' := DecodeAll(data, init).value;
      DecodeAllWellKeyed(data, init, es');
      match ParseEntryAt(data, AddrToBinOffset(last))
      case Failure(_) =>
      case Success((entry, next)) =>
        if entry.Some? {
          ParseEntryWellKeyed(data, AddrToBinOffset(last), entry.value, next);
        }
    }
  }

  /** Before relocation, the folded map of a successful walk has every key
      holding all its values in pointer order, shaped by the list-coercion
      rule, and the named-group key holding only groups. */
  lemma ParsedResult(data: seq<byte>, pointers: seq<nat>, es: seq<Entry>)
    requires DecodeAll(data, pointers) == Success(es)
    ensures forall k :: k in FoldAll(es) <==> ValuesOf(es, k) != []
    ensures forall k :: k in FoldAll(es) ==> FoldAll(es)[k] == Shape(k, ValuesOf(es, k))
    ensures NAMED_GROUP_KEY in FoldAll(es) ==>
      FoldAll(es)[NAMED_GROUP_KEY].List? && forall g :: g in FoldAll(es)[NAMED_GROUP_KEY].items ==> g.Group?
  {
    DecodeAllWellKeyed(data, pointers, es);
    FoldAllShape(es);
    NamedGroupsAreGroups(es);
  }
}
