/** The per-entry decoders as functions of the image bytes and the cursor:
    each returns its entry and where it leaves the cursor, or the exception
    the source would raise. */
module Entries {
  import opened Common
  import opened LittleEndian
  import opened Stream
  import opened BinaryInfo

  /** `struct.unpack` of an n-byte format over `read(n)`: a short read raises. */
  function Unpack(data: seq<byte>, pos: nat, n: nat): (r: Result<(seq<byte>, nat)>)
    requires n > 0
    ensures r.Success? <==> pos + n <= |data|
    ensures r.Success? ==> r.value == (data[pos..pos + n], pos + n)
    ensures r.Failure? ==> r.error == ShortUnpack
  {
    var (b, next) := ReadAt(data, pos, n);
    if |b| == n then Success((b, next)) else Failure(ShortUnpack)
  }

  /** `lookup_string(address)`: seek to the address's offset, then read up to a NUL byte. */
  function LookupStringAt(data: seq<byte>, address: nat): Result<(seq<byte>, nat)>
  {
    var offset := AddrToBinOffset(address);
    if offset < 0 then Failure(NegativeSeek) else ScanUntil(data, offset, [0])
  }

  /** `_parse_type_id_and_int`: `<II` = id, value. */
  function IdAndIntAt(data: seq<byte>, pos: nat): Result<(Entry, nat)>
  {
    match Unpack(data, pos, 8)
    case Failure(e) => Failure(e)
    case Success((b, next)) => Success((Entry(IdKey(U32(b[..4])), Int(U32(b[4..]))), next))
  }

  /** `_parse_type_id_and_str`: `<II` = id, string address. */
  function IdAndStrAt(data: seq<byte>, pos: nat): Result<(Entry, nat)>
  {
    match Unpack(data, pos, 8)
    case Failure(e) => Failure(e)
    case Success((b, _)) =>
      match LookupStringAt(data, U32(b[4..]))
      case Failure(e) => Failure(e)
      case Success((s, end)) => Success((Entry(IdKey(U32(b[..4])), Text(s)), end))
  }

  /** `_parse_block_device`: `<IIIIH` = name address, start, size, more-info
      address (read and ignored), flags. */
  function BlockDeviceAt(data: seq<byte>, pos: nat): Result<(Entry, nat)>
  {
    match Unpack(data, pos, 18)
    case Failure(e) => Failure(e)
    case Success((b, _)) =>
      match LookupStringAt(data, U32(b[0..4]))
      case Failure(e) => Failure(e)
      case Success((name, end)) =>
        Success((Entry(BLOCK_DEVICE_KEY, BlockDev(name, U32(b[4..8]), U32(b[8..12]), U16(b[16..18]))), end))
  }

  /** `_parse_named_group`: `<IHHII` = parent id, flags, group tag, group id, label address. */
  function NamedGroupAt(data: seq<byte>, pos: nat): Result<(Entry, nat)>
  {
    match Unpack(data, pos, 16)
    case Failure(e) => Failure(e)
    case Success((b, _)) =>
      match LookupStringAt(data, U32(b[12..16]))
      case Failure(e) => Failure(e)
      case Success((labelText, end)) =>
        Success((Entry(NAMED_GROUP_KEY, Group(labelText, U32(b[0..4]), U16(b[4..6]), U16(b[6..8]), U32(b[8..12]), None)), end))
  }

  function Found(r: Result<(Entry, nat)>): Result<(Option<Entry>, nat)>
  {
    match r
    case Success((e, next)) => Success((Some(e), next))
    case Failure(e) => Failure(e)
  }

  predicate IsAcceptedTag(tag: seq<byte>)
  {
    tag == TAG_RP || tag == TAG_MP
  }

  predicate HasParser(dataType: nat)
  {
    dataType == TYPE_ID_AND_INT || dataType == TYPE_ID_AND_STRING
    || dataType == TYPE_BLOCK_DEVICE || dataType == TYPE_NAMED_GROUP
  }

  /** `parse_entry`: a `<H2s` prefix (type, source tag), then the decoder
      registered for the type, but only for an accepted source tag. */
  function ParseEntryAt(data: seq<byte>, pos: nat): Result<(Option<Entry>, nat)>
  {
    match Unpack(data, pos, 4)
    case Failure(e) => Failure(e)
    case Success((b, next)) =>
      var dataType := U16(b[..2]);
      if !IsAcceptedTag(b[2..]) then Success((None, next))
      else if dataType == TYPE_ID_AND_INT then Found(IdAndIntAt(data, next))
      else if dataType == TYPE_ID_AND_STRING then Found(IdAndStrAt(data, next))
      else if dataType == TYPE_BLOCK_DEVICE then Found(BlockDeviceAt(data, next))
      else if dataType == TYPE_NAMED_GROUP then Found(NamedGroupAt(data, next))
      else Success((None, next))
  }

  /** The NUL-terminated string s is stored at the flash address. */
  ghost predicate StringAt(data: seq<byte>, address: nat, s: seq<byte>)
  {
    var offset := AddrToBinOffset(address);
    && offset >= 0
    && offset + |s| < |data|
    && data[offset..offset + |s|] == s
    && data[offset + |s|] == 0
    && forall i :: 0 <= i < |s| ==> s[i] != 0
  }

  /** A string lookup returns exactly the bytes before the first NUL at the
      address, and leaves the cursor just past that NUL. */
  lemma LookupStringReturns(data: seq<byte>, address: nat, s: seq<byte>, end: nat)
    requires LookupStringAt(data, address) == Success((s, end))
    ensures StringAt(data, address, s)
    ensures end == AddrToBinOffset(address) + |s| + 1
  {
    var offset := AddrToBinOffset(address);
    ScanUntilFound(data, offset, [0], s, end);
    ScanUntilStopsAt(data, offset, [0], s, end);
    ChunksAvoidNul(data, offset, |s|);
    assert data[offset + |s|] == data[offset + |s|..end][0];
    assert forall i :: 0 <= i < |s| ==> s[i] == data[offset + i];
  }

  /** Conversely, a string stored at the address is what the lookup returns. */
  lemma LookupStringFinds(data: seq<byte>, address: nat, s: seq<byte>)
    requires StringAt(data, address, s)
    ensures LookupStringAt(data, address) == Success((s, AddrToBinOffset(address) + |s| + 1))
  {
    var offset := AddrToBinOffset(address);
    assert forall i :: offset <= i < offset + |s| ==> data[i] == s[i - offset];
    ChunksAvoidNul(data, offset, |s|);
    assert data[offset + |s|..offset + |s| + 1] == [0];
    ScanUntilStopsAtFirst(data, offset, [0], |s|);
  }

  /** An entry is decoded only from an accepted tag and a registered type;
      any other complete prefix is skipped, consuming just the prefix; a
      truncated prefix raises. */
  lemma ParseEntryFilter(data: seq<byte>, pos: nat)
    ensures pos + 4 > |data| ==> ParseEntryAt(data, pos) == Failure(ShortUnpack)
    ensures pos + 4 <= |data| ==>
      (ParseEntryAt(data, pos) == Success((None, pos + 4))
       <==> !IsAcceptedTag(data[pos + 2..pos + 4]) || !HasParser(U16(data[pos..pos + 2])))
  {
    if pos + 4 <= |data| {
      var b := data[pos..pos + 4];
      assert b[..2] == data[pos..pos + 2] && b[2..] == data[pos + 2..pos + 4];
    }
  }

  /** What a decoded entry can look like: never a list; block devices and
      named groups under their own keys (and only there); a fresh group has no data. */
  ghost predicate WellKeyed(e: Entry)
  {
    && !e.value.List?
    && (e.key == NAMED_GROUP_KEY <==> e.value.Group?)
    && (e.key == BLOCK_DEVICE_KEY <==> e.value.BlockDev?)
    && (e.value.Group? ==> e.value.data.None?)
  }

  lemma ParseEntryWellKeyed(data: seq<byte>, pos: nat, e: Entry, next: nat)
    requires ParseEntryAt(data, pos) == Success((Some(e), next))
    ensures WellKeyed(e)
  {
    var dataType := U16(data[pos..pos + 4][..2]);
    if dataType == TYPE_ID_AND_INT {
      assert IdAndIntAt(data, pos + 4) == Success((e, next));
      var b := data[pos + 4..pos + 12];
      assert e == Entry(IdKey(U32(b[..4])), Int(U32(b[4..])));
      IdKeyIsNotRecordKey(U32(b[..4]));
    } else if dataType == TYPE_ID_AND_STRING {
      assert IdAndStrAt(data, pos + 4) == Success((e, next));
      var b := data[pos + 4..pos + 12];
      assert e.key == IdKey(U32(b[..4])) && e.value.Text?;
      IdKeyIsNotRecordKey(U32(b[..4]));
    }
  }

  /** The `<H2s` prefix of an entry: unpacking it gives back its type and source tag. */
  function EncodePrefix(dataType: nat, source: seq<byte>): (r: seq<byte>)
    requires dataType < 0x1_0000 && |source| == 2
    ensures |r| == 4 && U16(r[..2]) == dataType && r[2..] == source
  {
    var r := EncodeU16(dataType) + source;
    assert r[..2] == EncodeU16(dataType);
    r
  }

  /** The `<II` body of an entry of type 5 or 6: unpacking it gives back the
      id and the second word. */
  function EncodeIdBody(id: nat, word: nat): (r: seq<byte>)
    requires id < 0x1_0000_0000 && word < 0x1_0000_0000
    ensures |r| == 8 && U32(r[..4]) == id && U32(r[4..]) == word
  {
    var r := EncodeU32(id) + EncodeU32(word);
    assert r[..4] == EncodeU32(id) && r[4..] == EncodeU32(word);
    r
  }

  /** An ID-and-int record decodes to its value under the id's key. */
  lemma IdAndIntRoundTrip(data: seq<byte>, pos: nat, source: seq<byte>, id: nat, value: nat)
    requires IsAcceptedTag(source) && id < 0x1_0000_0000 && value < 0x1_0000_0000
    requires pos + 12 <= |data|
    requires data[pos..pos + 12] == EncodePrefix(TYPE_ID_AND_INT, source) + EncodeIdBody(id, value)
    ensures ParseEntryAt(data, pos) == Success((Some(Entry(IdKey(id), Int(value))), pos + 12))
  {
    var rec := data[pos..pos + 12];
    assert data[pos..pos + 4] == rec[..4] == EncodePrefix(TYPE_ID_AND_INT, source);
    assert data[pos + 4..pos + 12] == rec[4..] == EncodeIdBody(id, value);
  }

  /** An ID-and-string record decodes to the string stored at its address. */
  lemma IdAndStringRoundTrip(data: seq<byte>, pos: nat, source: seq<byte>, id: nat, address: nat, s: seq<byte>)
    requires IsAcceptedTag(source) && id < 0x1_0000_0000 && address < 0x1_0000_0000
    requires pos + 12 <= |data|
    requires data[pos..pos + 12] == EncodePrefix(TYPE_ID_AND_STRING, source) + EncodeIdBody(id, address)
    requires StringAt(data, address, s)
    ensures ParseEntryAt(data, pos) == Success((Some(Entry(IdKey(id), Text(s))), AddrToBinOffset(address) + |s| + 1))
  {
    var rec := data[pos..pos + 12];
    assert data[pos..pos + 4] == rec[..4] == EncodePrefix(TYPE_ID_AND_STRING, source);
    assert data[pos + 4..pos + 12] == rec[4..] == EncodeIdBody(id, address);
    LookupStringFinds(data, address, s);
  }

  /** The `<IIIIH` body of a block-device entry: unpacking it gives back each field. */
  function EncodeBlockDeviceBody(nameAddr: nat, address: nat, size: nat, moreInfo: nat, flags: nat): (r: seq<byte>)
    requires nameAddr < 0x1_0000_0000 && address < 0x1_0000_0000
    requires size < 0x1_0000_0000 && moreInfo < 0x1_0000_0000 && flags < 0x1_0000
    ensures |r| == 18
    ensures U32(r[0..4]) == nameAddr && U32(r[4..8]) == address && U32(r[8..12]) == size
    ensures U32(r[12..16]) == moreInfo && U16(r[16..18]) == flags
  {
    var a := EncodeU32(nameAddr) + EncodeU32(address);
    var b := a + EncodeU32(size);
    var c := b + EncodeU32(moreInfo);
    var r := c + EncodeU16(flags);
    assert r[0..4] == a[0..4] && r[4..8] == a[4..8];
    assert r[8..12] == b[8..12] && r[12..16] == c[12..16];
    assert r[16..18] == EncodeU16(flags);
    r
  }

  /** A block-device record decodes to its fields and the name at its name
      address; the more-info address has no effect. */
  lemma BlockDeviceRoundTrip(data: seq<byte>, pos: nat, source: seq<byte>, nameAddr: nat, address: nat,
                             size: nat, moreInfo: nat, flags: nat, name: seq<byte>)
    requires IsAcceptedTag(source) && nameAddr < 0x1_0000_0000 && address < 0x1_0000_0000
    requires size < 0x1_0000_0000 && moreInfo < 0x1_0000_0000 && flags < 0x1_0000
    requires pos + 22 <= |data|
    requires data[pos..pos + 22] == EncodePrefix(TYPE_BLOCK_DEVICE, source) + EncodeBlockDeviceBody(nameAddr, address, size, moreInfo, flags)
    requires StringAt(data, nameAddr, name)
    ensures ParseEntryAt(data, pos)
         == Success((Some(Entry(BLOCK_DEVICE_KEY, BlockDev(name, address, size, flags))), AddrToBinOffset(nameAddr) + |name| + 1))
  {
    var rec := data[pos..pos + 22];
    assert data[pos..pos + 4] == rec[..4] == EncodePrefix(TYPE_BLOCK_DEVICE, source);
    assert data[pos + 4..pos + 22] == rec[4..] == EncodeBlockDeviceBody(nameAddr, address, size, moreInfo, flags);
    LookupStringFinds(data, nameAddr, name);
  }

  /** The `<IHHII` body of a named-group entry: unpacking it gives back each field. */
  function EncodeNamedGroupBody(parent: nat, flags: nat, groupTag: nat, groupId: nat, labelAddr: nat): (r: seq<byte>)
    requires parent < 0x1_0000_0000 && flags < 0x1_0000 && groupTag < 0x1_0000
    requires groupId < 0x1_0000_0000 && labelAddr < 0x1_0000_0000
    ensures |r| == 16
    ensures U32(r[0..4]) == parent && U16(r[4..6]) == flags && U16(r[6..8]) == groupTag
    ensures U32(r[8..12]) == groupId && U32(r[12..16]) == labelAddr
  {
    var a := EncodeU32(parent) + EncodeU16(flags);
    var b := a + EncodeU16(groupTag);
    var c := b + EncodeU32(groupId);
    var r := c + EncodeU32(labelAddr);
    assert r[0..4] == a[0..4] && r[4..6] == a[4..6];
    assert r[6..8] == b[6..8] && r[8..12] == c[8..12];
    assert r[12..16] == EncodeU32(labelAddr);
    r
  }

  /** A named-group record decodes to its fields and the label at its label
      address, with no data yet. */
  lemma NamedGroupRoundTrip(data: seq<byte>, pos: nat, source: seq<byte>, parent: nat, flags: nat,
                            groupTag: nat, groupId: nat, labelAddr: nat, labelText: seq<byte>)
    requires IsAcceptedTag(source) && parent < 0x1_0000_0000 && flags < 0x1_0000 && groupTag < 0x1_0000
    requires groupId < 0x1_0000_0000 && labelAddr < 0x1_0000_0000
    requires pos + 20 <= |data|
    requires data[pos..pos + 20] == EncodePrefix(TYPE_NAMED_GROUP, source) + EncodeNamedGroupBody(parent, flags, groupTag, groupId, labelAddr)
    requires StringAt(data, labelAddr, labelText)
    ensures ParseEntryAt(data, pos)
         == Success((Some(Entry(NAMED_GROUP_KEY, Group(labelText, parent, flags, groupTag, groupId, None))),
                     AddrToBinOffset(labelAddr) + |labelText| + 1))
  {
    var rec := data[pos..pos + 20];
    assert data[pos..pos + 4] == rec[..4] == EncodePrefix(TYPE_NAMED_GROUP, source);
    assert data[pos + 4..pos + 20] == rec[4..] == EncodeNamedGroupBody(parent, flags, groupTag, groupId, labelAddr);
    LookupStringFinds(data, labelAddr, labelText);
  }
}
