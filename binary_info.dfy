/** Constants of the RP2040 binary-info format, the id-to-name tables, and the
    shape of a decoded result. */
module BinaryInfo {
  import opened Common

  const FLASH_START_ADDR: nat := 0x1000_0000

  const BI_MAGIC: seq<byte> := [0xF2, 0xEB, 0x88, 0x71]
  const BI_END: seq<byte> := [0x90, 0xA3, 0x1A, 0xE7]

  const TYPE_ID_AND_INT: nat := 5
  const TYPE_ID_AND_STRING: nat := 6
  const TYPE_BLOCK_DEVICE: nat := 7
  const TYPE_NAMED_GROUP: nat := 10

  /** The accepted two-byte source tags, "RP" and "MP". */
  const TAG_RP: seq<byte> := [0x52, 0x50]
  const TAG_MP: seq<byte> := [0x4D, 0x50]

  const ID_PROGRAM_NAME: nat := 0x02031c86
  const ID_PROGRAM_VERSION_STRING: nat := 0x11a9bc3a
  const ID_PROGRAM_BUILD_DATE_STRING: nat := 0x9da22254
  const ID_BINARY_END: nat := 0x68f465de
  const ID_PROGRAM_URL: nat := 0x1856239a
  const ID_PROGRAM_DESCRIPTION: nat := 0xb6a07c19
  const ID_PROGRAM_FEATURE: nat := 0xa1f4b453
  const ID_PROGRAM_BUILD_ATTRIBUTE: nat := 0x4275f0d3
  const ID_SDK_VERSION: nat := 0x5360b3ab
  const ID_PICO_BOARD: nat := 0xb63cffbb
  const ID_BOOT2_NAME: nat := 0x7f8882e1

  /** The well-known data ids and their display names. */
  const IDS: map<nat, string> := map[
    ID_PROGRAM_NAME := "Program Name",
    ID_PROGRAM_VERSION_STRING := "Program Version",
    ID_PROGRAM_BUILD_DATE_STRING := "Build Date",
    ID_BINARY_END := "Binary End Address",
    ID_PROGRAM_URL := "Program URL",
    ID_PROGRAM_DESCRIPTION := "Program Description",
    ID_PROGRAM_FEATURE := "Program Feature",
    ID_PROGRAM_BUILD_ATTRIBUTE := "Program Build Attribute",
    ID_SDK_VERSION := "SDK Version",
    ID_PICO_BOARD := "Pico Board",
    ID_BOOT2_NAME := "Boot Stage 2 Name"
  ]

  /** The record type names. Type 9 is listed twice in the source's dictionary
      literal; the later entry, "Pins With Names", is the one that stays. */
  const TYPES: map<nat, string> := map[
    1 := "Raw Data",
    2 := "Sized Data",
    3 := "Zero Terminated List",
    4 := "BSON",
    5 := "ID & Int",
    6 := "ID & Str",
    7 := "Block Device",
    8 := "Pins With Func",
    9 := "Pins With Name",
    9 := "Pins With Names",
    10 := "Named Group"
  ]

  /** A key of the result: a name, or the raw numeric id of an unknown data id. */
  datatype Key = Name(name: string) | Num(id: nat)

  /** A value of the result. `Text`, a block device's name and a group's `labelText` keep a string's bytes as read from the image. */
  datatype Value =
    | Int(n: nat)
    | Text(bytes: seq<byte>)
    | BlockDev(name: seq<byte>, address: nat, size: nat, flags: nat)
    | Group(labelText: seq<byte>, parent: nat, flags: nat, tag: nat, id: nat, data: Option<Value>)
    | List(items: seq<Value>)

  /** One decoded record: the key it is filed under and its value. */
  datatype Entry = Entry(key: Key, value: Value)

  const BLOCK_DEVICE_KEY: Key := Name("BlockDevice")
  const NAMED_GROUP_KEY: Key := Name("NamedGroup")

  /** Keys whose values are stored as a list even when they occur once. */
  const ALWAYS_A_LIST: set<Key> := {NAMED_GROUP_KEY, BLOCK_DEVICE_KEY, Name("ProgramFeature")}

  /** Flash address to image offset; negative for an address below flash. */
  function AddrToBinOffset(addr: int): (offset: int)
    ensures BinOffsetToAddr(offset) == addr
  {
    addr - FLASH_START_ADDR
  }

  /** Image offset back to its flash address. */
  function BinOffsetToAddr(offset: int): (addr: int)
    ensures offset == addr - FLASH_START_ADDR
  {
    offset + FLASH_START_ADDR
  }

  /** The record type's display name, or "Unknown". */
  function DataTypeToStr(dataType: nat): (name: string)
    ensures name == "Unknown" <==> dataType !in TYPES
    ensures dataType in TYPES ==> name == TYPES[dataType]
  {
    if dataType in TYPES then TYPES[dataType] else "Unknown"
  }

  /** The data id's display name, or "Unknown". */
  function DataIdToStr(dataId: nat): (name: string)
    ensures name == "Unknown" <==> dataId !in IDS
    ensures dataId in IDS ==> name == IDS[dataId]
  {
    if dataId in IDS then IDS[dataId] else "Unknown"
  }

  predicate IsValidDataId(dataId: nat)
  {
    dataId in IDS
  }

  /** `s.replace(" ", "")`. */
  function StripSpaces(s: string): (r: string)
    ensures ' ' !in r
    ensures forall c :: c in r ==> c in s
  {
    if s == [] then []
    else
      assert s == [s[0]] + s[1..];
      (if s[0] == ' ' then [] else [s[0]]) + StripSpaces(s[1..])
  }

  /** Removing spaces works piece by piece: the pieces' remainders, in order. */
  lemma {:induction false} StripSpacesAppend(a: string, b: string)
    ensures StripSpaces(a + b) == StripSpaces(a) + StripSpaces(b)
  {
    if a == [] {
      assert a + b == b;
    } else {
      var head := if a[0] == ' ' then [] else [a[0]];
      assert (a + b)[0] == a[0] && (a + b)[1..] == a[1..] + b;
      assert StripSpaces(a + b) == head + StripSpaces(a[1..] + b);
      StripSpacesAppend(a[1..], b);
      assert head + (StripSpaces(a[1..]) + StripSpaces(b)) == (head + StripSpaces(a[1..])) + StripSpaces(b);
    }
  }

  /** Removing spaces drops every space and keeps every other character, as often as it occurs. */
  lemma {:induction false} StripSpacesCounts(s: string)
    ensures multiset(StripSpaces(s)) == multiset(s)[' ' := 0]
  {
    if s != [] {
      StripSpacesCounts(s[1..]);
      assert s == [s[0]] + s[1..];
    }
  }

  /** A string without spaces is left as it is. */
  lemma {:induction false} StripSpacesKeeps(s: string)
    requires ' ' !in s
    ensures StripSpaces(s) == s
  {
    if s != [] {
      assert ' ' !in s[1..];
      StripSpacesKeeps(s[1..]);
    }
  }

  /** The display name of the data id with its spaces removed. */
  function DataIdToTypename(dataId: nat): (name: string)
    ensures ' ' !in name
    ensures forall c :: c in name ==> c in DataIdToStr(dataId)
  {
    StripSpaces(DataIdToStr(dataId))
  }

  /** The key an id-carrying record is filed under: the space-free name of a
      known id, the raw id otherwise. */
  function IdKey(dataId: nat): (k: Key)
    ensures k.Name? <==> dataId in IDS
    ensures k.Num? ==> k.id == dataId
    ensures k.Name? ==> ' ' !in k.name && forall c :: c in k.name ==> c in IDS[dataId]
  {
    if IsValidDataId(dataId) then Name(DataIdToTypename(dataId)) else Num(dataId)
  }

  /** The display name of the program-feature id. */
  lemma FeatureName()
    ensures DataIdToStr(ID_PROGRAM_FEATURE) == "Program Feature"
  {
  }

  /** Removing spaces from a string that starts with c. */
  lemma StripSpacesCons(c: char, s: string)
    ensures StripSpaces([c] + s) == (if c == ' ' then [] else [c]) + StripSpaces(s)
  {
    assert ([c] + s)[1..] == s;
  }

  /** Two space-free words joined by a space lose just that space. */
  lemma StripOneSpace(a: string, b: string)
    requires ' ' !in a && ' ' !in b
    ensures StripSpaces(a + ([' '] + b)) == a + b
  {
    StripSpacesAppend(a, [' '] + b);
    assert StripSpaces(a + ([' '] + b)) == StripSpaces(a) + StripSpaces([' '] + b);
    StripSpacesCons(' ', b);
    assert StripSpaces([' '] + b) == StripSpaces(b);
    StripSpacesKeeps(a);
    StripSpacesKeeps(b);
  }

  /** Program features are filed under "ProgramFeature", one of the keys
      always stored as a list. */
  lemma ProgramFeatureKey()
    ensures IdKey(ID_PROGRAM_FEATURE) == Name("ProgramFeature")
    ensures IdKey(ID_PROGRAM_FEATURE) in ALWAYS_A_LIST
  {
    var a, b := "Program", "Feature";
    assert a + b == "ProgramFeature";
    assert a + ([' '] + b) == "Program Feature";
    assert ' ' !in a && ' ' !in b;
    FeatureName();
    StripOneSpace(a, b);
  }

  /** No known id's display name contains a capital G. */
  lemma KnownNamesLackG()
    ensures forall dataId :: dataId in IDS ==> 'G' !in IDS[dataId]
  {
  }

  /** No known id's display name contains a lower-case k. */
  lemma KnownNamesLackK()
    ensures forall dataId :: dataId in IDS ==> 'k' !in IDS[dataId]
  {
  }

  /** Each record key has a letter no known id's name has. */
  lemma RecordKeyLetters()
    ensures 'G' in NAMED_GROUP_KEY.name && 'k' in BLOCK_DEVICE_KEY.name
  {
    assert NAMED_GROUP_KEY.name[5] == 'G';
    assert BLOCK_DEVICE_KEY.name[4] == 'k';
  }

  /** An id-carrying record is never filed under the keys of block devices or
      named groups, whatever its id. */
  lemma IdKeyIsNotRecordKey(dataId: nat)
    ensures IdKey(dataId) != BLOCK_DEVICE_KEY && IdKey(dataId) != NAMED_GROUP_KEY
  {
    if dataId in IDS {
      var full := IDS[dataId];
      assert 'G' !in full && 'k' !in full by { KnownNamesLackG(); KnownNamesLackK(); }
      var name := IdKey(dataId).name;
      assert 'G' !in name && 'k' !in name;
      RecordKeyLetters();
    }
  }
}
