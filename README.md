# py_decl binary-info decoder, modelled in Dafny

`py_decl.py` reads an RP2040 firmware image in UF2 form and pulls out its
"binary info" table: program name, version, build date, binary end address,
features, block devices and named groups. This project models that decoder
and proves properties of it. The model covers:

- **UF2 flattening** (`uf2.dfy`, module `Uf2`). The reader cuts every 512-byte
  block down to bytes 32..288 and concatenates the results. It does not look
  at magics, addresses or family ids.
- **The cursor over the flattened image** (`stream.dfy`, module `Stream`).
  `ByteStream` is a class with a fixed `data` and a movable `pos`.
  - `read(n)` returns `min(n, remaining)` bytes; at or past the end it returns nothing.
  - `seek` accepts any offset that is not negative.
  - `ScanUntil` is `read_until` as a function of the data and the cursor.
    It reads delimiter-sized chunks and stops at the first chunk equal to the
    delimiter, so a delimiter is only found at chunk-aligned positions.
- **Constants and tables** (`binary_info.dfy`, module `BinaryInfo`):
  - the `IDS` and `TYPES` tables;
  - address/offset translation;
  - id-to-name helpers;
  - the key and value types of the result.
- **Little-endian words** (`little_endian.dfy`): what the decoders unpack with `struct.unpack`.
- **Per-entry decoding** (`entries.dfy`, module `Entries`). `parse_entry` and
  the four decoders are functions of the image bytes and the cursor, each
  returning its entry and the cursor it leaves.
- **Result assembly** (`assemble.dfy`, module `Assemble`):
  - the fold with list coercion;
  - the relocation of entries keyed by a group id into that group.
- **The table walk** (`table.dfy`, module `Table`). `ParseImage` is all of
  `parse` as one function of the flattened image.
- **The decoder object** (`py_decl.dfy`, module `Parser`). `PyDecl` holds a
  `ByteStream` and has a method for each source method that reads from the
  shared cursor: `read_until` (with its generator `_read_until` as one loop),
  `lookup_string`, the four decoders, `parse_entry` and `parse`, plus
  `FoldEntries` for the pointer loop inside `parse`. The source's pure helpers
  (`addr_to_bin_offset`, `data_id_to_str` and the rest) are functions in
  `BinaryInfo`. Each reading method is proved to return what the matching
  function says; when it succeeds it also leaves the cursor where that function
  says. Where a method fails the contract states only the error, not the
  cursor, since the source has raised and the cursor is no longer used.
  `FoldEntries` and `Parse` state their result only.

The model keeps the source's outcomes apart:

- `Success(None)` is `parse` returning `None`.
- `Success(Some(m))` is a parsed map.
- `Failure(e)` is an exception escaping `parse`, or a scan that never
  returns a result (`NoDelimiter`).

Strings are kept as their bytes.

## Model

| member | source | states |
|---|---|---|
| LittleEndian.U16 | py_decl.py:263 | a `<H` field read from two bytes is below 2^16 |
| LittleEndian.U32 | py_decl.py:222 | a `<I` field read from four bytes is below 2^32 |
| LittleEndian.EncodeU16 | py_decl.py:263 | every half-word has a two-byte encoding that `<H` reads back as that half-word |
| LittleEndian.EncodeU32 | py_decl.py:222 | every word has a four-byte encoding that `<I` reads back as that word |
| LittleEndian.U16Injective | py_decl.py:263 | reading two bytes loses nothing: they are the encoding of the half-word read |
| LittleEndian.U32Injective | py_decl.py:222 | reading four bytes loses nothing: they are the encoding of the word read |
| Uf2.Flatten | py_decl.py:89-96 | the bytes the reader holds: the payload of every chunk `read(512)` returns, in order; `FlattenBlocks` and `PayloadsLayout` give its layout |
| Uf2.Payload | py_decl.py:96 | the slice taken from a block has at most 256 bytes, and for a whole block it is exactly bytes 32..288 |
| Uf2.Uf2ToBin | py_decl.py:87-96 | the block-reading loop joins the payloads exactly as `Flatten` describes |
| Uf2.FlattenBlocks | py_decl.py:92-96 | a file of whole 512-byte blocks flattens to the payloads of those blocks, in block order |
| Uf2.PayloadsLayout | py_decl.py:18-20 | k whole blocks flatten to 256·k bytes, and payload i sits at offset 256·i |
| Stream.ReadAt | py_decl.py:209 | a read moves the cursor by exactly the number of bytes it returns |
| Stream.ReadAtReturns | py_decl.py:209 | `read(n)` returns `min(n, remaining)` bytes, and those are the next bytes of the data; at or past the end it returns nothing |
| Stream.ReadAtWithin | py_decl.py:142 | a read that fits in the data returns exactly the bytes asked for, and the cursor ends after them |
| Stream.ByteStream.constructor | py_decl.py:90 | the stream holds the given bytes with the cursor at 0 |
| Stream.ByteStream.Read | py_decl.py:142 | `read(n)` returns what `ReadAt` gives and moves the cursor to where it says |
| Stream.ByteStream.ReadToEnd | py_decl.py:142 | `read(-1)` returns the whole rest of the data and leaves the cursor at the end |
| Stream.ByteStream.Seek | py_decl.py:141 | a seek succeeds exactly for a non-negative offset and then sets the cursor to it; a failed seek leaves the cursor unchanged |
| Stream.ScanUntil | py_decl.py:208-213 | `read_until` from a cursor: the chunks before the first chunk equal to the delimiter and the cursor past it, or `NoDelimiter` where the source keeps reading empty chunks and never returns; its meaning is proved in the four `ScanUntil*` lemmas |
| Stream.ScanUntilStopsAt | py_decl.py:208-213 | a successful scan stops just past a delimiter that starts a whole number of chunks after the cursor, and none of the chunks before it equals the delimiter |
| Stream.ScanUntilStopsAtFirst | py_decl.py:208-213 | given chunks that avoid the delimiter and then the delimiter itself, the scan returns exactly those chunks, with the cursor just past the delimiter |
| Stream.ScanUntilFound | py_decl.py:208-213 | what a successful scan returns is the run of bytes from the cursor up to the delimiter; the delimiter is consumed but not returned |
| Stream.ScanUntilMissing | py_decl.py:208-213 | the scan fails exactly when no chunk-aligned delimiter lies ahead before the data runs short, and the failure is the scan that never returns a result |
| Stream.ChunksAvoidNul | py_decl.py:215-218 | with the one-byte NUL delimiter, "no chunk is the delimiter" means "no byte is NUL", in both directions |
| BinaryInfo.AddrToBinOffset | py_decl.py:184-185 | turning an address into an offset is undone by `bin_offset_to_addr` |
| BinaryInfo.BinOffsetToAddr | py_decl.py:187-188 | the address of an offset lies exactly 0x10000000 above it, so it inverts `addr_to_bin_offset` |
| BinaryInfo.DataTypeToStr | py_decl.py:190-194 | the result is "Unknown" exactly for a type missing from `TYPES`, and otherwise the table's name |
| BinaryInfo.DataIdToStr | py_decl.py:196-200 | the result is "Unknown" exactly for an id missing from `IDS`, and otherwise the table's name |
| BinaryInfo.IsValidDataId | py_decl.py:202-203 | an id is valid exactly when `IDS` has it; `IdKey` states what depends on it |
| BinaryInfo.StripSpaces | py_decl.py:206 | the result has no space and only characters of the input |
| BinaryInfo.StripSpacesAppend | py_decl.py:206 | removing spaces from a concatenation removes them from each part and keeps the parts in order |
| BinaryInfo.StripSpacesKeeps | py_decl.py:206 | a string without spaces comes back unchanged |
| BinaryInfo.StripSpacesCounts | py_decl.py:206 | every space is dropped, and every other character is kept as often as it occurs |
| BinaryInfo.DataIdToTypename | py_decl.py:205-206 | the type name has no space, and its characters come from the id's display name |
| BinaryInfo.IdKey | py_decl.py:227-230 | an id-carrying entry is keyed by a name exactly when its id is in `IDS`, and otherwise by the raw id; the name is the display name without spaces |
| BinaryInfo.ProgramFeatureKey | py_decl.py:84 | program-feature entries are filed under "ProgramFeature", one of the always-a-list keys |
| BinaryInfo.IdKeyIsNotRecordKey | py_decl.py:227-260 | whatever its id, an id-carrying entry is never filed under "BlockDevice" or "NamedGroup" |
| Entries.Unpack | py_decl.py:222 | `struct.unpack` over `read(n)` succeeds exactly when n bytes remain; it then returns those bytes and the cursor after them, and otherwise raises |
| Entries.LookupStringAt | py_decl.py:215-219 | `lookup_string` on the image: a seek to the address's offset, which raises below flash, then a NUL scan; `LookupStringReturns` and `LookupStringFinds` give its result both ways |
| Entries.IdAndIntAt | py_decl.py:221-230 | `_parse_type_id_and_int` from a cursor: an 8-byte unpack, keyed by `IdKey`; `IdAndIntRoundTrip` states it for every encoded record |
| Entries.IdAndStrAt | py_decl.py:232-242 | `_parse_type_id_and_str` from a cursor: an 8-byte unpack, then the string at the second word; `IdAndStringRoundTrip` states it for every encoded record |
| Entries.BlockDeviceAt | py_decl.py:244-254 | `_parse_block_device` from a cursor: an 18-byte unpack, then the name string; `BlockDeviceRoundTrip` states it for every encoded record |
| Entries.NamedGroupAt | py_decl.py:256-260 | `_parse_named_group` from a cursor: a 16-byte unpack, then the label string; `NamedGroupRoundTrip` states it for every encoded record |
| Entries.ParseEntryAt | py_decl.py:262-270 | `parse_entry` from a cursor: the `<H2s` prefix, then the registered decoder for an accepted tag; `ParseEntryFilter` and `ParseEntryWellKeyed` state what it yields |
| Entries.LookupStringReturns | py_decl.py:215-219 | a string lookup returns the NUL-free bytes stored at the address before a NUL, and leaves the cursor just past that NUL |
| Entries.LookupStringFinds | py_decl.py:215-219 | conversely, a NUL-terminated string stored at the address is exactly what the lookup returns |
| Entries.ParseEntryFilter | py_decl.py:262-270 | a truncated prefix raises; otherwise the entry is skipped, consuming just its prefix, exactly when the source tag is not "RP"/"MP" or the type has no registered parser |
| Entries.ParseEntryWellKeyed | py_decl.py:221-260 | a decoded entry is never a list; block devices and named groups appear under their own keys and only there; a fresh group carries no data |
| Entries.EncodePrefix | py_decl.py:263 | every type and two-byte tag have a four-byte `<H2s` prefix that unpacks back to that type and tag |
| Entries.EncodeIdBody | py_decl.py:222 | every id and word have an eight-byte `<II` body that unpacks back to that id and word |
| Entries.EncodeBlockDeviceBody | py_decl.py:245 | every set of block-device fields has an 18-byte `<IIIIH` body that unpacks back to each field |
| Entries.EncodeNamedGroupBody | py_decl.py:257 | every set of named-group fields has a 16-byte `<IHHII` body that unpacks back to each field |
| Entries.IdAndIntRoundTrip | py_decl.py:221-230 | an encoded ID-and-int record decodes to its value under the id's key, consuming 12 bytes |
| Entries.IdAndStringRoundTrip | py_decl.py:232-242 | an encoded ID-and-string record decodes to the string stored at its address, under the id's key |
| Entries.BlockDeviceRoundTrip | py_decl.py:244-254 | an encoded block-device record decodes to its fields and the name at its name address; the more-info address has no effect |
| Entries.NamedGroupRoundTrip | py_decl.py:256-260 | an encoded named-group record decodes to its fields and the label at its label address |
| Assemble.FoldAll | py_decl.py:153-173 | the map after filing the entries one by one in order; `FoldAllShape` gives it in closed form |
| Assemble.RelocateGroups | py_decl.py:175-180 | the relocation loop over the group list; `RelocateGroupsSpec` gives its result for every group and the top level |
| Assemble.AssignGroups | py_decl.py:175-180 | relocation when a "NamedGroup" list is present; `AssignGroupsSpec` gives the whole result |
| Assemble.FoldEntry | py_decl.py:163-173 | filing an entry adds its key and leaves every other key's value alone |
| Assemble.FoldAllShape | py_decl.py:163-173 | after the fold a key is present exactly when some entry has it; it holds all of that key's values in entry order, as a list when the key is always a list or occurs more than once, and bare otherwise |
| Assemble.ValuesOfKeyed | py_decl.py:163-173 | every value filed under a key comes from an entry with that key |
| Assemble.NamedGroupsAreGroups | py_decl.py:176-177 | with decoded entries, the "NamedGroup" key holds a list of groups |
| Assemble.RelocateGroupsTop | py_decl.py:175-180 | relocation removes from the top level exactly the keys named by group ids, and nothing else |
| Assemble.RelocateGroupsSpec | py_decl.py:175-180 | group i receives the top-level value under its id exactly when it is the first group with that id, so the first group wins; every other group is unchanged |
| Assemble.AssignGroupsSpec | py_decl.py:175-180 | after relocation the group list holds the relocated groups; any other key is gone exactly when a group's id names it and otherwise keeps its value; without named groups nothing changes |
| Assemble.MoveGroupData | py_decl.py:175-180 | the relocation loop over the group list produces what `AssignGroups` describes |
| Table.FindHeader | py_decl.py:114-118 | the two marker scans from offset 0; `HeaderLocated` and `NoMagicNoResult` state where they stop or that they never do |
| Table.ReadHeader | py_decl.py:120-127 | a header of other than 12 bytes gives `None`, otherwise its first two words go to `ReadTable` |
| Table.ReadTable | py_decl.py:133-148 | the pointer-array seek, read and unpack; `ReadTableRejects` and `ReadTableWalks` cover every case, the empty array at or above flash pointing past the image included |
| Table.EntryAt | py_decl.py:156-163 | one turn of the pointer loop: seek to the pointer's offset, then `parse_entry` |
| Table.DecodeAll | py_decl.py:155-163 | the entries the pointers yield in pointer order, or the first failure; `DecodeAllSucceeds` and `DecodeAllFailurePersists` state when each happens |
| Table.WalkTable | py_decl.py:153-180 | decode, fold and relocate once the pointers are unpacked; `ParsedResult` and `AssignGroupsSpec` give the result |
| Table.ParseImage | py_decl.py:113-182 | all of `parse` on the flattened image; `ParseImageLayout`, `ReadTableWalks` and the walk lemmas give its result |
| Table.Words | py_decl.py:148 | unpacking gives one word per four bytes, and word i is the little-endian value of bytes 4i..4i+4 |
| Table.HeaderLocated | py_decl.py:114-118 | the header is the run of chunks between the first chunk-aligned BI_MAGIC and the first chunk-aligned BI_END after it |
| Table.ParseImageLayout | py_decl.py:113-127 | once the header is located, `parse` continues with the bytes between the two markers |
| Table.NoMagicNoResult | py_decl.py:116 | in an image with no chunk-aligned BI_MAGIC, `parse` never returns a result |
| Table.ReadTableRejects | py_decl.py:133-148 | each failure and `None` case of the pointer-array read: an array below flash raises on seek before anything else; at or above flash, a length below -1 raises; a length of -1 or an array running past the image gives `None`; a whole array whose length is not a multiple of 4 raises in `struct.unpack`; an empty array gives an empty result wherever at or above flash it points, past the image's end included |
| Table.WordsAt | py_decl.py:148 | the pointer array gives exactly length/4 pointers, read from the image in order |
| Table.ReadTableWalks | py_decl.py:133-155 | a whole pointer array is walked with exactly the words it holds |
| Table.DecodeAllSucceeds | py_decl.py:155-163 | the walk yields entries exactly when no pointer's entry raises or hangs |
| Table.DecodeAllFailurePersists | py_decl.py:155-163 | once an entry fails, the whole walk fails the same way |
| Table.DecodeAllWellKeyed | py_decl.py:155-163 | every entry the walk yields is well keyed |
| Table.ParsedResult | py_decl.py:153-173 | the folded map of a successful walk holds each key's values in pointer order, shaped by the list-coercion rule, and "NamedGroup" holds only groups |
| Parser.PyDecl.constructor | py_decl.py:99-111 | the decoder opens the flattened UF2 payloads with the cursor at 0 |
| Parser.PyDecl.ReadUntil | py_decl.py:208-213 | the chunk loop returns, and leaves the cursor, exactly as `ScanUntil` from the old cursor says |
| Parser.PyDecl.LookupString | py_decl.py:215-219 | the seek-and-scan returns, and leaves the cursor, exactly as `LookupStringAt` says |
| Parser.PyDecl.ReadStruct | py_decl.py:222 | reading and unpacking n bytes gives what `Unpack` from the old cursor gives |
| Parser.PyDecl.ParseIdAndInt | py_decl.py:221-230 | the decoder returns, and leaves the cursor, exactly as `IdAndIntAt` says |
| Parser.PyDecl.ParseIdAndStr | py_decl.py:232-242 | the decoder returns, and leaves the cursor, exactly as `IdAndStrAt` says |
| Parser.PyDecl.ParseBlockDevice | py_decl.py:244-254 | the decoder returns, and leaves the cursor, exactly as `BlockDeviceAt` says |
| Parser.PyDecl.ParseNamedGroup | py_decl.py:256-260 | the decoder returns, and leaves the cursor, exactly as `NamedGroupAt` says |
| Parser.PyDecl.ParseEntry | py_decl.py:262-270 | the dispatch returns, and leaves the cursor, exactly as `ParseEntryAt` says |
| Parser.PyDecl.FoldEntries | py_decl.py:153-173 | the pointer loop succeeds exactly when the walk does; it then gives the fold of the walked entries, and otherwise the walk's error |
| Parser.PyDecl.Parse | py_decl.py:113-182 | `parse` on the decoder's image gives exactly `ParseImage` of the flattened bytes |

## Left out

- UTF-8 decoding of strings and source tags (py_decl.py:219, 265). Strings stay as bytes. The source tag is compared with the bytes "RP" and "MP", which is what the decoded comparison accepts. An invalid UTF-8 string would raise `UnicodeDecodeError` in the source; the model returns its bytes instead.
- Entries.ParseEntryAt: a source tag that is not valid UTF-8 (for example the bytes `FF FF`) raises `UnicodeDecodeError` in the source at py_decl.py:265, outside the `try`, and that ends the whole `parse`. The model skips such an entry like any other tag that is not "RP" or "MP", so `ParseEntryFilter` and the walk lemmas describe the skip, not the exception.
- `DEBUG` printing, the `debug` flag and the `sys.stderr` messages. The model keeps only the `None` return. The messages at py_decl.py:121 and 145 name the global `filename`, which exists only when the file runs as a script, so an imported `PyDecl` would raise `NameError` on those paths. The model follows script use.
- Opening and reading the UF2 file (py_decl.py:93). The constructor takes the file's bytes as a parameter.
- `io.BufferedReader` over `io.BytesIO` (py_decl.py:87-90). `ByteStream` stands in for it; buffering has no visible effect on reads from memory.
- Host byte order of `struct.unpack("III")` and `"I" * n` (py_decl.py:127, 148) is taken to be little-endian.
- The command-line block (py_decl.py:273 onwards): argparse, file checks, JSON output and the `--verify` overlap report. `examples/size_report.py` and `examples/mpy_decl.py` are not part of this model. They use a different constructor and a `MemoryReader` that is not in `py_decl.py`.
- `data_type_to_str` is modelled but has no caller outside debug output.
- Parser.PyDecl.Parse: the relocation returns a new map and new group values. In the source, the group dicts are updated in place inside the "NamedGroup" list, and a moved value is shared, not copied. Aliasing between the result and the group data is not modelled.
- Python integers and strings as dictionary keys are modelled by `Key = Name(..) | Num(..)`. A group dict with an optional `"data"` field is `Group(.., data: Option<Value>)`.
- BinaryInfo.StripSpaces: its own contract says only that spaces are gone and nothing new appears. The exact result, with the order kept, is pinned down by `StripSpacesAppend`, `StripSpacesKeeps` and `StripSpacesCounts`.

## Behaviour worth knowing

Where a reader might expect otherwise, the code does this:

- UF2 blocks are never validated. Magics, addresses and family ids are
  ignored, and every 512-byte chunk (also a short last one) contributes
  `block[32:288]`.
- There is no out-of-range error. A read past the end returns fewer bytes,
  or none. A string or marker scan that runs off the end never returns a
  result: `read_until` joins the empty chunks it keeps reading until memory
  runs out. That outcome is `Failure(NoDelimiter)`.
- An image without BI_MAGIC at a 4-aligned offset makes `parse` never return
  a result. It does not report a missing header.
- A failing entry (a short read, a negative seek, a string that runs off
  the end) ends the whole `parse`. Failing entries are not skipped one by one.
- An array that starts below 0x10000000 raises on the seek before anything
  else. For an array at or above flash: a whole pointer array (one that can
  be read in full) whose length is not a multiple of 4 raises from
  `struct.unpack`; an array that cannot be read in full gives `None` first.
  An empty array (end equal to start) gives an empty result, wherever at or
  above flash it points, past the image's end included. An array whose end
  is one byte before its start reads to the end of the image and gives
  `None`. An end further below the start raises.
- With duplicate group ids the first group takes the data, because the key
  is deleted after the first match.
- The third header word (the mapping table) is read and unused.
- Only UF2 input is accepted. There is no raw-binary path.
