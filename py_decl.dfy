/** The decoder object: a UF2 image flattened into a seekable buffer, and the
    methods that move its cursor while reading the binary-info table. Each
    reading method is proved to return what the corresponding function of the
    image bytes says and, when it succeeds, to leave the cursor where that
    function says; a failure states only its error. `FoldEntries` and `Parse`
    state their result only. */
module Parser {
  import opened Common
  import opened LittleEndian
  import opened Uf2
  import opened Stream
  import opened BinaryInfo
  import opened Entries
  import opened Assemble
  import opened Table

  /** A successful scan with `prefix` put in front of what it returns. */
  function Prepend(prefix: seq<byte>, r: Result<(seq<byte>, nat)>): Result<(seq<byte>, nat)>
  {
    match r
    case Success((s, end)) => Success((prefix + s, end))
    case Failure(e) => Failure(e)
  }

  class PyDecl {
    const file: ByteStream

    /** Opens the UF2 file's bytes: the reader holds their flattened payloads,
        with the cursor at the start. */
    constructor (uf2File: seq<byte>)
      ensures fresh(file)
      ensures file.data == Flatten(uf2File) && file.pos == 0
    {
      var bin := Uf2ToBin(uf2File);
      file := new ByteStream(bin);
    }

    /** `read_until(delimiter)`: reads delimiter-sized chunks until one equals
        the delimiter and returns the bytes before it. Where the source would
        keep reading empty chunks and never return a result, this returns
        `Failure(NoDelimiter)`. */
    method ReadUntil(delimiter: seq<byte>) returns (r: Result<seq<byte>>)
      modifies file
      ensures WithPos(r, file.pos) == ScanUntil(file.data, old(file.pos), delimiter)
    {
      var acc: seq<byte> := [];
      ghost var start := file.pos;
      PrependNothing(ScanUntil(file.data, start, delimiter));
      while true
        invariant ScanUntil(file.data, start, delimiter) == Prepend(acc, ScanUntil(file.data, file.pos, delimiter))
        decreases |file.data| - file.pos
      {
        ghost var before := file.pos;
        var chunk := file.Read(|delimiter|);
        ReadAtReturns(file.data, before, |delimiter|);
        if chunk == delimiter {
          assert ScanUntil(file.data, before, delimiter) == Success(([], file.pos));
          assert acc + [] == acc;
          return Success(acc);
        }
        if chunk == [] {
          return Failure(NoDelimiter);
        }
        PrependTwice(acc, chunk, ScanUntil(file.data, file.pos, delimiter));
        acc := acc + chunk;
      }
    }

    /** `lookup_string(address)`: seeks to the address's offset and reads up to
        the next NUL byte, which is consumed but not returned. */
    method LookupString(address: nat) returns (r: Result<seq<byte>>)
      modifies file
      ensures WithPos(r, file.pos) == LookupStringAt(file.data, address)
    {
      var ok := file.Seek(AddrToBinOffset(address));
      if !ok {
        return Failure(NegativeSeek);
      }
      r := ReadUntil([0]);
    }

    /** `struct.unpack(fmt, self.file.read(n))` for an n-byte format: the read
        always happens, and a short read raises. */
    method ReadStruct(n: nat) returns (r: Result<seq<byte>>)
      requires n > 0
      modifies file
      ensures WithPos(r, file.pos) == Unpack(file.data, old(file.pos), n)
    {
      var b := file.Read(n);
      ReadAtReturns(file.data, old(file.pos), n);
      if |b| != n {
        return Failure(ShortUnpack);
      }
      return Success(b);
    }

    /** `_parse_type_id_and_int`. */
    method ParseIdAndInt() returns (r: Result<Entry>)
      modifies file
      ensures WithPos(r, file.pos) == IdAndIntAt(file.data, old(file.pos))
    {
      var b := ReadStruct(8);
      if b.Failure? {
        return Failure(b.error);
      }
      var dataId, value := U32(b.value[..4]), U32(b.value[4..]);
      return Success(Entry(IdKey(dataId), Int(value)));
    }

    /** `_parse_type_id_and_str`. */
    method ParseIdAndStr() returns (r: Result<Entry>)
      modifies file
      ensures WithPos(r, file.pos) == IdAndStrAt(file.data, old(file.pos))
    {
      var b := ReadStruct(8);
      if b.Failure? {
        return Failure(b.error);
      }
      var dataId, strAddr := U32(b.value[..4]), U32(b.value[4..]);
      var s := LookupString(strAddr);
      if s.Failure? {
        return Failure(s.error);
      }
      return Success(Entry(IdKey(dataId), Text(s.value)));
    }

    /** `_parse_block_device`: the more-info address is read and ignored. */
    method ParseBlockDevice() returns (r: Result<Entry>)
      modifies file
      ensures WithPos(r, file.pos) == BlockDeviceAt(file.data, old(file.pos))
    {
      var b := ReadStruct(18);
      if b.Failure? {
        return Failure(b.error);
      }
      var nameAddr, startAddr, size, flags := U32(b.value[0..4]), U32(b.value[4..8]), U32(b.value[8..12]), U16(b.value[16..18]);
      var name := LookupString(nameAddr);
      if name.Failure? {
        return Failure(name.error);
      }
      return Success(Entry(BLOCK_DEVICE_KEY, BlockDev(name.value, startAddr, size, flags)));
    }

    /** `_parse_named_group`. */
    method ParseNamedGroup() returns (r: Result<Entry>)
      modifies file
      ensures WithPos(r, file.pos) == NamedGroupAt(file.data, old(file.pos))
    {
      var b := ReadStruct(16);
      if b.Failure? {
        return Failure(b.error);
      }
      var parent, flags, groupTag, groupId, labelAddr :=
        U32(b.value[0..4]), U16(b.value[4..6]), U16(b.value[6..8]), U32(b.value[8..12]), U32(b.value[12..16]);
      var labelText := LookupString(labelAddr);
      if labelText.Failure? {
        return Failure(labelText.error);
      }
      return Success(Entry(NAMED_GROUP_KEY, Group(labelText.value, parent, flags, groupTag, groupId, None)));
    }

    /** `parse_entry`: reads the type and source tag, then runs the decoder
        registered for the type when the tag is accepted; otherwise no entry. */
    method ParseEntry() returns (r: Result<Option<Entry>>)
      modifies file
      ensures WithPos(r, file.pos) == ParseEntryAt(file.data, old(file.pos))
    {
      var b := ReadStruct(4);
      if b.Failure? {
        return Failure(b.error);
      }
      var dataType, tag := U16(b.value[..2]), b.value[2..];
      if !IsAcceptedTag(tag) {
        return Success(None);
      }
      var e: Result<Entry>;
      if dataType == TYPE_ID_AND_INT {
        e := ParseIdAndInt();
      } else if dataType == TYPE_ID_AND_STRING {
        e := ParseIdAndStr();
      } else if dataType == TYPE_BLOCK_DEVICE {
        e := ParseBlockDevice();
      } else if dataType == TYPE_NAMED_GROUP {
        e := ParseNamedGroup();
      } else {
        return Success(None);
      }
      if e.Failure? {
        return Failure(e.error);
      }
      return Success(Some(e.value));
    }

    /** The loop of `parse` over the entry pointers: seek to each pointer's
        offset, decode the entry there, and file it in the map. */
    method FoldEntries(pointers: seq<nat>) returns (r: Result<Parsed>)
      modifies file
      ensures r.Success? <==> DecodeAll(file.data, pointers).Success?
      ensures r.Success? ==> r.value == FoldAll(DecodeAll(file.data, pointers).value)
      ensures r.Failure? ==> r.error == DecodeAll(file.data, pointers).error
    {
      var parsed: Parsed := map[];
      ghost var es: seq<Entry> := [];
      var i := 0;
      while i < |pointers|
        invariant 0 <= i <= |pointers|
        invariant DecodeAll(file.data, pointers[..i]) == Success(es)
        invariant parsed == FoldAll(es)
      {
        assert pointers[..i + 1][..i] == pointers[..i];
        var ok := file.Seek(AddrToBinOffset(pointers[i]));
        if !ok {
          DecodeAllFailurePersists(file.data, pointers, i + 1);
          return Failure(NegativeSeek);
        }
        var entry := ParseEntry();
        if entry.Failure? {
          DecodeAllFailurePersists(file.data, pointers, i + 1);
          return Failure(entry.error);
        }
        if entry.value.Some? {
          parsed := FoldEntry(parsed, entry.value.value);
          es := es + [entry.value.value];
        }
        i := i + 1;
      }
      assert pointers[..i] == pointers;
      return Success(parsed);
    }

    /** `parse`: finds the header between BI_MAGIC and BI_END, reads the
        pointer array it delimits, decodes and folds the entries, and moves
        group-keyed entries into their named groups. */
    method Parse() returns (r: Result<Option<Parsed>>)
      modifies file
      ensures r == ParseImage(file.data)
    {
      var _ := file.Seek(0);
      var magic := ReadUntil(BI_MAGIC);
      if magic.Failure? {
        return Failure(magic.error);
      }
      var header := ReadUntil(BI_END);
      if header.Failure? {
        return Failure(header.error);
      }
      if |header.value| != 12 {
        return Success(None);
      }
      var entriesStart, entriesEnd := U32(header.value[0..4]), U32(header.value[4..8]);
      var start := AddrToBinOffset(entriesStart);
      var length := AddrToBinOffset(entriesEnd) - start;
      var ok := file.Seek(start);
      if !ok {
        return Failure(NegativeSeek);
      }
      if length < -1 {
        return Failure(BadReadLength);
      }
      var pointerBytes: seq<byte>;
      if length == -1 {
        pointerBytes := file.ReadToEnd();
      } else {
        pointerBytes := file.Read(length);
      }
      if |pointerBytes| != length {
        return Success(None);
      }
      if length % 4 != 0 {
        return Failure(ShortUnpack);
      }
      var folded := FoldEntries(Words(pointerBytes));
      if folded.Failure? {
        return Failure(folded.error);
      }
      var parsed := MoveGroupData(folded.value);
      return Success(Some(parsed));
    }
  }

  /** Prepending nothing changes nothing. */
  lemma PrependNothing(r: Result<(seq<byte>, nat)>)
    ensures Prepend([], r) == r
  {
    if r.Success? {
      assert [] + r.value.0 == r.value.0;
    }
  }

  /** Two prepends in a row are one prepend of both. */
  lemma PrependTwice(a: seq<byte>, b: seq<byte>, r: Result<(seq<byte>, nat)>)
    ensures Prepend(a, Prepend(b, r)) == Prepend(a + b, r)
  {
    if r.Success? {
      assert a + (b + r.value.0) == (a + b) + r.value.0;
    }
  }
}
