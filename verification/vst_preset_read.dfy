/**
 * vstpresettojson.py: read `*.vstpreset` files and turn each one's
 * component chunk into a preset of named values, following the schema.
 *
 * A file is read the way Python reads it: a `read(n)` near the end returns
 * fewer bytes (none past the end) and `int.from_bytes` of a short field is
 * the value of the bytes there are.  A `seek` or a `read` whose argument
 * does not fit a signed 64-bit integer raises; any smaller offset may lie
 * past the end.  Offsets and sizes in the chunk list are not otherwise
 * checked against the file.
 */
module VstPresetRead {
  import opened Wrappers
  import opened Bytes
  import opened Text
  import opened OrderedDict
  import opened Sorting
  import opened ParameterSchema
  import opened PresetFormat

  /** A chunk's contents: raw bytes, or the Info chunk decoded as UTF-8 text. */
  datatype Section = Raw(bytes: seq<byte>) | Utf8Text(text: string)

  datatype ChunkEntry = ChunkEntry(id: string, offset: nat, size: nat)

  /** The `chunk_info` record: the header fields and the chunk list. */
  datatype ChunkInfo = ChunkInfo(
    headerId: string,
    version: nat,
    classId: string,
    chunkListOffset: nat,
    listId: string,
    entryCount: nat,
    entries: seq<ChunkEntry>)

  datatype PresetData = PresetData(info: ChunkInfo, sections: Dict<string, Section>)

  datatype ReadError =
    | NotAscii(pos: nat)        // `decode("ascii")` of a header field or chunk id
    | NotVstPreset              // the first four bytes are not "VST3"
    | SeekOverflow(offset: nat) // `fi.seek(offset)` beyond a signed 64-bit file offset
    | ReadOverflow(size: nat)   // `fi.read(size)` beyond a signed 64-bit size
    | NotUtf8(id: string)       // the Info chunk is not UTF-8
    | MissingComp               // `data["Comp"]` raises KeyError
    | Truncated(name: string)   // `struct.unpack` of a short slice

  /** `fi.read(n).decode("ascii")` at `pos`, with the position after the read. */
  function ReadAscii(file: seq<byte>, pos: nat, n: nat): (r: Result<(string, nat), ReadError>)
    ensures r.Success? <==> AsciiDecode(Take(file, pos, n)).Some?
    ensures r.Success? ==> AsciiDecode(Take(file, pos, n)) == Some(r.value.0)
    ensures r.Success? ==> |r.value.0| <= n && r.value.1 == pos + |r.value.0|
    ensures r.Success? ==> SamePlace(file, r.value.1, pos + n)
    ensures r.Failure? ==> r.error == NotAscii(pos)
  {
    var bs := Take(file, pos, n);
    match AsciiDecode(bs)
    case None => Failure(NotAscii(pos))
    case Some(s) => Success((s, pos + |bs|))
  }

  /** `int.from_bytes(fi.read(n), endian)` at `pos`, with the position after the read. */
  function ReadInt(file: seq<byte>, pos: nat, n: nat, endian: Endian): (r: (nat, nat))
    ensures r.0 == FromBytes(Take(file, pos, n), endian) && r.0 < Pow256(n)
    ensures pos <= r.1 <= pos + n && SamePlace(file, r.1, pos + n)
  {
    var bs := Take(file, pos, n);
    Pow256Monotone(|bs|, n);
    (FromBytes(bs, endian), pos + |bs|)
  }

  // ---------------------------------------------------------------------
  // The chunk list

  /** Where entry `k` of a list whose entries start at `pos` lies: each entry takes 20 bytes. */
  function EntryPos(pos: nat, k: nat): nat {
    pos + 20 * k
  }

  /** `e` is the entry the bytes at `p` hold: a 4-byte ASCII id, an 8-byte offset, an 8-byte size. */
  predicate EntryAt(file: seq<byte>, p: nat, endian: Endian, e: ChunkEntry) {
    && AsciiDecode(Take(file, p, 4)) == Some(e.id)
    && e.offset == FromBytes(Take(file, p + 4, 8), endian)
    && e.size == FromBytes(Take(file, p + 12, 8), endian)
  }

  /** Each of the `count` entries from `pos` on has an ASCII id. */
  predicate IdsReadable(file: seq<byte>, pos: nat, count: nat) {
    forall k :: 0 <= k < count ==> AsciiDecode(Take(file, EntryPos(pos, k), 4)).Some?
  }

  /** `es` are the entries the list holds from `pos` on, in order. */
  predicate EntriesAt(file: seq<byte>, pos: nat, endian: Endian, es: seq<ChunkEntry>) {
    forall k :: 0 <= k < |es| ==> EntryAt(file, EntryPos(pos, k), endian, es[k])
  }

  /** A list read from either of two positions no read can tell apart holds the same entries. */
  lemma EntriesSamePlace(file: seq<byte>, a: nat, b: nat, count: nat, endian: Endian)
    requires SamePlace(file, a, b)
    ensures IdsReadable(file, a, count) <==> IdsReadable(file, b, count)
    ensures forall es :: EntriesAt(file, a, endian, es) <==> EntriesAt(file, b, endian, es)
  {
    forall k: nat
      ensures Take(file, EntryPos(a, k), 4) == Take(file, EntryPos(b, k), 4)
      ensures Take(file, EntryPos(a, k) + 4, 8) == Take(file, EntryPos(b, k) + 4, 8)
      ensures Take(file, EntryPos(a, k) + 12, 8) == Take(file, EntryPos(b, k) + 12, 8)
    {
      TakeSamePlace(file, EntryPos(a, k), EntryPos(b, k), 4);
      TakeSamePlace(file, EntryPos(a, k) + 4, EntryPos(b, k) + 4, 8);
      TakeSamePlace(file, EntryPos(a, k) + 12, EntryPos(b, k) + 12, 8);
    }
  }

  /** The ids of a list are its first id and the ids 20 bytes on. */
  lemma IdsCons(file: seq<byte>, pos: nat, count: nat)
    ensures IdsReadable(file, pos, count + 1)
      <==> AsciiDecode(Take(file, pos, 4)).Some? && IdsReadable(file, pos + 20, count)
  {
    assert EntryPos(pos, 0) == pos;
    var next := pos + 20;
    if IdsReadable(file, pos, count + 1) {
      forall k | 0 <= k < count ensures AsciiDecode(Take(file, EntryPos(next, k), 4)).Some? {
        assert EntryPos(next, k) == EntryPos(pos, k + 1);
      }
    }
    if AsciiDecode(Take(file, pos, 4)).Some? && IdsReadable(file, pos + 20, count) {
      forall k | 0 <= k < count + 1 ensures AsciiDecode(Take(file, EntryPos(pos, k), 4)).Some? {
        if k > 0 {
          assert EntryPos(pos, k) == EntryPos(pos + 20, k - 1);
        }
      }
    }
  }

  /** A list is its first entry followed by the list 20 bytes on. */
  lemma EntriesCons(file: seq<byte>, pos: nat, endian: Endian, e: ChunkEntry, es: seq<ChunkEntry>)
    ensures EntriesAt(file, pos, endian, [e] + es)
      <==> EntryAt(file, pos, endian, e) && EntriesAt(file, pos + 20, endian, es)
  {
    var s := [e] + es;
    assert EntryPos(pos, 0) == pos && s[0] == e;
    if EntryAt(file, pos, endian, e) && EntriesAt(file, pos + 20, endian, es) {
      forall k | 0 <= k < |s| ensures EntryAt(file, EntryPos(pos, k), endian, s[k]) {
        if k > 0 {
          assert s[k] == es[k - 1] && EntryPos(pos, k) == EntryPos(pos + 20, k - 1);
        }
      }
    }
    if EntriesAt(file, pos, endian, s) {
      forall k | 0 <= k < |es| ensures EntryAt(file, EntryPos(pos + 20, k), endian, es[k]) {
        assert s[k + 1] == es[k] && EntryPos(pos, k + 1) == EntryPos(pos + 20, k);
      }
    }
  }

  /**
   * The `entry_count` loop over the chunk list: it succeeds exactly when
   * every id is ASCII, and entry `k` is then the 20 bytes `20 * k` on from
   * where the loop starts, whatever short reads happen on the way.
   */
  function ReadEntries(file: seq<byte>, pos: nat, count: nat, endian: Endian): (r: Result<(seq<ChunkEntry>, nat), ReadError>)
    ensures r.Success? <==> IdsReadable(file, pos, count)
    ensures r.Success? ==> |r.value.0| == count && EntriesAt(file, pos, endian, r.value.0)
    ensures r.Failure? ==> r.error.NotAscii?
    decreases count
  {
    if count == 0 then Success(([], pos))
    else
      IdsCons(file, pos, count - 1);
      var id :- ReadAscii(file, pos, 4);
      var offset := ReadInt(file, id.1, 8, endian);
      var size := ReadInt(file, offset.1, 8, endian);
      TakeSamePlace(file, id.1, pos + 4, 8);
      TakeSamePlace(file, offset.1, pos + 12, 8);
      EntriesSamePlace(file, size.1, pos + 20, count - 1, endian);
      var rest :- ReadEntries(file, size.1, count - 1, endian);
      var e := ChunkEntry(id.0, offset.0, size.0);
      EntriesCons(file, pos, endian, e, rest.0);
      Success(([e] + rest.0, rest.1))
  }

  // ---------------------------------------------------------------------
  // The chunks

  /**
   * One chunk's contents: seek to its offset and read its size, decoding
   * the Info chunk as text.  An offset or size too large for a signed
   * 64-bit integer raises before anything is read.
   */
  function ReadSection(file: seq<byte>, e: ChunkEntry, decodeUtf8: seq<byte> -> Option<string>): (r: Result<Section, ReadError>)
    ensures e.offset >= TwoTo63 ==> r == Failure(SeekOverflow(e.offset))
    ensures e.offset < TwoTo63 && e.size >= TwoTo63 ==> r == Failure(ReadOverflow(e.size))
    ensures r.Success? ==> e.offset < TwoTo63 && e.size < TwoTo63
    ensures e.offset < TwoTo63 && e.size < TwoTo63 && e.id != InfoId ==> r == Success(Raw(Take(file, e.offset, e.size)))
    ensures e.offset < TwoTo63 && e.size < TwoTo63 && e.id == InfoId ==>
      (r.Success? <==> decodeUtf8(Take(file, e.offset, e.size)).Some?)
      && (r.Success? ==> r.value == Utf8Text(decodeUtf8(Take(file, e.offset, e.size)).value))
      && (r.Failure? ==> r.error == NotUtf8(InfoId))
  {
    if e.offset >= TwoTo63 then Failure(SeekOverflow(e.offset))
    else if e.size >= TwoTo63 then Failure(ReadOverflow(e.size))
    else
      var bs := Take(file, e.offset, e.size);
      if e.id == InfoId then
        match decodeUtf8(bs)
        case None => Failure(NotUtf8(e.id))
        case Some(t) => Success(Utf8Text(t))
      else Success(Raw(bs))
  }

  /** `data[ent["id"]] = ...` for each entry in list order: a repeated id keeps its place and takes the later chunk. */
  function ReadSections(file: seq<byte>, data: Dict<string, Section>, entries: seq<ChunkEntry>,
                        decodeUtf8: seq<byte> -> Option<string>): Result<Dict<string, Section>, ReadError>
    decreases |entries|
  {
    if |entries| == 0 then Success(data)
    else
      var sec :- ReadSection(file, entries[0], decodeUtf8);
      ReadSections(file, Put(data, entries[0].id, sec), entries[1..], decodeUtf8)
  }

  /** Every chunk of the list can be read. */
  predicate SectionsReadable(file: seq<byte>, es: seq<ChunkEntry>, decodeUtf8: seq<byte> -> Option<string>) {
    forall k :: 0 <= k < |es| ==> ReadSection(file, es[k], decodeUtf8).Success?
  }

  /** Each entry's id paired with its chunk's contents, in list order. */
  function SectionPairs(file: seq<byte>, es: seq<ChunkEntry>, decodeUtf8: seq<byte> -> Option<string>): (r: seq<(string, Section)>)
    requires SectionsReadable(file, es, decodeUtf8)
    ensures |r| == |es|
    ensures forall k :: 0 <= k < |es| ==> r[k] == (es[k].id, ReadSection(file, es[k], decodeUtf8).value)
  {
    seq(|es|, k requires 0 <= k < |es| => (es[k].id, ReadSection(file, es[k], decodeUtf8).value))
  }

  /**
   * Reading the chunks succeeds exactly when every chunk can be read, and
   * then assigns each entry's chunk under its id, in list order.
   */
  lemma {:induction false} ReadSectionsIsPutAll(file: seq<byte>, d: Dict<string, Section>, es: seq<ChunkEntry>,
                                                decodeUtf8: seq<byte> -> Option<string>)
    ensures ReadSections(file, d, es, decodeUtf8).Success? <==> SectionsReadable(file, es, decodeUtf8)
    ensures SectionsReadable(file, es, decodeUtf8) ==>
      ReadSections(file, d, es, decodeUtf8).value == PutAll(d, SectionPairs(file, es, decodeUtf8))
    decreases |es|
  {
    if |es| > 0 {
      var sec := ReadSection(file, es[0], decodeUtf8);
      assert SectionsReadable(file, es, decodeUtf8) ==> sec.Success?;
      if sec.Success? {
        ReadSectionsIsPutAll(file, Put(d, es[0].id, sec.value), es[1..], decodeUtf8);
        assert SectionsReadable(file, es, decodeUtf8) <==> SectionsReadable(file, es[1..], decodeUtf8) by {
          if SectionsReadable(file, es[1..], decodeUtf8) {
            forall k | 0 <= k < |es| ensures ReadSection(file, es[k], decodeUtf8).Success? {
              if k > 0 {
                assert es[k] == es[1..][k - 1];
              }
            }
          }
          if SectionsReadable(file, es, decodeUtf8) {
            forall k | 0 <= k < |es| - 1 ensures ReadSection(file, es[1..][k], decodeUtf8).Success? {
              assert es[1..][k] == es[k + 1];
            }
          }
        }
        if SectionsReadable(file, es, decodeUtf8) {
          var ps := SectionPairs(file, es, decodeUtf8);
          assert ps[0] == (es[0].id, sec.value);
          assert ps[1..] == SectionPairs(file, es[1..], decodeUtf8);
        }
      }
    }
  }

  // ---------------------------------------------------------------------
  // The file

  /** The header fields where the format puts them: the id at 0, the version at 4, the class id at 8, the chunk-list offset at 40. */
  predicate HeaderAt(file: seq<byte>, endian: Endian, info: ChunkInfo) {
    && AsciiDecode(Take(file, 0, 4)) == Some(info.headerId)
    && info.version == FromBytes(Take(file, 4, 4), endian)
    && AsciiDecode(Take(file, 8, 32)) == Some(info.classId)
    && info.chunkListOffset == FromBytes(Take(file, 40, 8), endian)
  }

  /** A chunk list at `at`: its id, its entry count, then the entries from 8 bytes on. */
  predicate ListAt(file: seq<byte>, at: nat, endian: Endian, listId: string, count: nat, entries: seq<ChunkEntry>) {
    && AsciiDecode(Take(file, at, 4)) == Some(listId)
    && count == FromBytes(Take(file, at + 4, 4), endian)
    && |entries| == count
    && EntriesAt(file, at + 8, endian, entries)
  }

  /** The chunk list where the header says it is. */
  predicate ChunkListAt(file: seq<byte>, endian: Endian, info: ChunkInfo) {
    ListAt(file, info.chunkListOffset, endian, info.listId, info.entryCount, info.entries)
  }

  /** What follows `fi.seek(chunk_list_offset)`: the list id, the entry count and the entries. */
  function ReadChunkList(file: seq<byte>, at: nat, endian: Endian): (r: Result<(string, nat, seq<ChunkEntry>), ReadError>)
    ensures r.Success? ==> ListAt(file, at, endian, r.value.0, r.value.1, r.value.2) && r.value.1 < TwoTo32
    ensures AsciiDecode(Take(file, at, 4)).None? ==> r == Failure(NotAscii(at))
  {
    Pow256Values();
    var listId :- ReadAscii(file, at, 4);
    TakeSamePlace(file, listId.1, at + 4, 4);
    var count := ReadInt(file, listId.1, 4, endian);
    EntriesSamePlace(file, count.1, at + 8, count.0, endian);
    var entries :- ReadEntries(file, count.1, count.0, endian);
    Success((listId.0, count.0, entries.0))
  }

  /**
   * `read_vstpreset`.  The header's integer fields and the chunk list are
   * read in `endian` byte order; `decodeUtf8` stands for `bytes.decode("utf-8")`.
   * A file read whole holds its fields at their offsets in the format; the
   * sections are its chunks assigned in list order.
   */
  function ReadVstPreset(file: seq<byte>, endian: Endian, decodeUtf8: seq<byte> -> Option<string>): (r: Result<PresetData, ReadError>)
    ensures AsciiDecode(Take(file, 0, 4)).None? ==> r == Failure(NotAscii(0))
    ensures AsciiDecode(Take(file, 0, 4)).Some? && AsciiDecode(Take(file, 0, 4)).value != HeaderId ==> r == Failure(NotVstPreset)
    ensures AsciiDecode(Take(file, 0, 4)) == Some(HeaderId) && AsciiDecode(Take(file, 8, 32)).Some?
      && FromBytes(Take(file, 40, 8), endian) >= TwoTo63
      ==> r == Failure(SeekOverflow(FromBytes(Take(file, 40, 8), endian)))
    ensures r.Success? ==> r.value.info.headerId == HeaderId && HeaderAt(file, endian, r.value.info)
    ensures r.Success? ==> r.value.info.chunkListOffset < TwoTo63 && ChunkListAt(file, endian, r.value.info)
    ensures r.Success? ==> r.value.info.version < TwoTo32 && r.value.info.entryCount < TwoTo32
    ensures r.Success? ==>
      && SectionsReadable(file, r.value.info.entries, decodeUtf8)
      && r.value.sections == PutAll(Empty(), SectionPairs(file, r.value.info.entries, decodeUtf8))
  {
    Pow256Values();
    var header :- ReadAscii(file, 0, 4);
    if header.0 != HeaderId then Failure(NotVstPreset)
    else
      var version := ReadInt(file, header.1, 4, endian);
      TakeSamePlace(file, version.1, 8, 32);
      var classId :- ReadAscii(file, version.1, 32);
      TakeSamePlace(file, classId.1, 40, 8);
      var listOffset := ReadInt(file, classId.1, 8, endian);
      if listOffset.0 >= TwoTo63 then Failure(SeekOverflow(listOffset.0))
      else
        var list :- ReadChunkList(file, listOffset.0, endian);
        ReadSectionsIsPutAll(file, Empty(), list.2, decodeUtf8);
        var sections :- ReadSections(file, Empty(), list.2, decodeUtf8);
        Success(PresetData(
          ChunkInfo(header.0, version.0, classId.0, listOffset.0, list.0, list.1, list.2),
          sections))
  }

  /** `struct.unpack` of one field: "I" as a little-endian unsigned integer (the native order of the hosts the tool runs on), "d" as the double's bytes. */
  function UnpackField(t: TypeCode, field: seq<byte>): Value
    requires |field| == ByteSize(t)
  {
    match t
    case IntType => VInt(FromLittleEndian(field))
    case DoubleType => VDouble(field)
  }

  /**
   * The loop over the schema: each parameter takes the next `calcsize`
   * bytes of the component chunk, starting at `idx`.  Bytes after the last
   * parameter are ignored; a chunk too short for the next field fails.
   */
  function UnpackComp(comp: seq<byte>, idx: nat, items: seq<(string, ParamDef)>, acc: Dict<string, Value>)
    : (r: Result<Dict<string, Value>, ReadError>)
    requires idx <= |comp|
    ensures r.Success? <==> idx + ChunkSize(items) <= |comp|
    ensures r.Failure? ==> r.error.Truncated?
    decreases |items|
  {
    if |items| == 0 then Success(acc)
    else
      var n := ByteSize(items[0].1.typeCode);
      // A slice shorter than `n` is all Python's clamped slicing can yield past the end.
      if idx + n > |comp| then Failure(Truncated(items[0].0))
      else UnpackComp(comp, idx + n, items[1..], Put(acc, items[0].0, UnpackField(items[0].1.typeCode, comp[idx..idx + n])))
  }

  datatype PresetFile = PresetFile(path: seq<string>, contents: seq<byte>)

  function FileName(path: seq<string>): string {
    if |path| == 0 then "" else path[|path| - 1]
  }

  /** `PurePath.stem`: the name without its last suffix; a leading or trailing dot is not a suffix. */
  function Stem(name: string): (r: string)
    ensures |r| <= |name| && r == name[..|r|]
  {
    match FindLast(name, ".")
    case Some(i) => if 0 < i < |name| - 1 then name[..i] else name
    case None => name
  }

  /** The preset one file yields. */
  function ConvertFile(f: PresetFile, schema: Schema, endian: Endian, decodeUtf8: seq<byte> -> Option<string>)
    : (r: Result<Preset, ReadError>)
    ensures r.Success? ==> r.value.name == Stem(FileName(f.path))
  {
    var data :- ReadVstPreset(f.contents, endian, decodeUtf8);
    match Get(data.sections, CompId)
    case None => Failure(MissingComp)
    case Some(sec) =>
      var comp := if sec.Raw? then sec.bytes else [];
      var param :- UnpackComp(comp, 0, schema.items, Empty());
      Success(Preset(Stem(FileName(f.path)), param))
  }

  function Conversions(files: seq<PresetFile>, schema: Schema, endian: Endian, decodeUtf8: seq<byte> -> Option<string>)
    : (r: seq<Result<Preset, ReadError>>)
    ensures |r| == |files|
    ensures forall i :: 0 <= i < |files| ==> r[i] == ConvertFile(files[i], schema, endian, decodeUtf8)
  {
    seq(|files|, i requires 0 <= i < |files| => ConvertFile(files[i], schema, endian, decodeUtf8))
  }

  /** Every file's preset, in order, or the first file's error. */
  function ConvertFiles(files: seq<PresetFile>, schema: Schema, endian: Endian, decodeUtf8: seq<byte> -> Option<string>)
    : Result<seq<Preset>, ReadError>
  {
    Collect(Conversions(files, schema, endian, decodeUtf8))
  }

  function PathOf(f: PresetFile): seq<string> {
    f.path
  }

  /** `vstpreset_to_json` on the files the glob found, visited in sorted path order. */
  function VstPresetToJson(files: seq<PresetFile>, schema: Schema, endian: Endian, decodeUtf8: seq<byte> -> Option<string>)
    : Result<seq<Preset>, ReadError>
  {
    ConvertFiles(SortBy(files, PathOf), schema, endian, decodeUtf8)
  }

  // ---------------------------------------------------------------------
  // What the component chunk decodes to

  /** Offset of parameter `i` in the component chunk: the sizes of the parameters before it. */
  function FieldOffset(items: seq<(string, ParamDef)>, i: nat): (r: nat)
    requires i <= |items|
    ensures i < |items| ==> r + ByteSize(items[i].1.typeCode) <= ChunkSize(items)
  {
    if i < |items| then PrefixSize(items, i); ChunkSize(items[..i])
    else ChunkSize(items[..i])
  }

  /** The parameters before `i` and parameter `i` itself fit in the chunk. */
  lemma PrefixSize(items: seq<(string, ParamDef)>, i: nat)
    requires i < |items|
    ensures ChunkSize(items[..i + 1]) == ChunkSize(items[..i]) + ByteSize(items[i].1.typeCode)
    ensures ChunkSize(items[..i + 1]) <= ChunkSize(items)
  {
    assert items == items[..i + 1] + items[i + 1..];
    assert items[..i + 1] == items[..i] + [items[i]];
    ChunkSizeAppend(items[..i + 1], items[i + 1..]);
    ChunkSizeAppend(items[..i], [items[i]]);
    assert ChunkSize([items[i]]) == ByteSize(items[i].1.typeCode) by {
      assert [items[i]][1..] == [];
    }
  }

  /** The bytes of each parameter in `comp` from `idx` on, in schema order. */
  function FieldBytes(comp: seq<byte>, idx: nat, items: seq<(string, ParamDef)>): (r: seq<seq<byte>>)
    requires idx + ChunkSize(items) <= |comp|
    ensures |r| == |items|
    ensures forall k :: 0 <= k < |items| ==> |r[k]| == ByteSize(items[k].1.typeCode)
    decreases |items|
  {
    if |items| == 0 then []
    else
      var n := ByteSize(items[0].1.typeCode);
      [comp[idx..idx + n]] + FieldBytes(comp, idx + n, items[1..])
  }

  /** Each parameter's name paired with its bytes unpacked by its type. */
  function Unpacked(items: seq<(string, ParamDef)>, raw: seq<seq<byte>>): (r: seq<(string, Value)>)
    requires |raw| == |items| && forall k :: 0 <= k < |items| ==> |raw[k]| == ByteSize(items[k].1.typeCode)
    ensures |r| == |items|
    ensures forall k :: 0 <= k < |items| ==> r[k] == (items[k].0, UnpackField(items[k].1.typeCode, raw[k]))
  {
    seq(|items|, k requires 0 <= k < |items| => (items[k].0, UnpackField(items[k].1.typeCode, raw[k])))
  }

  /** The (name, value) pairs the schema reads out of `comp` from `idx` on, in schema order. */
  function DecodeFields(comp: seq<byte>, idx: nat, items: seq<(string, ParamDef)>): (r: seq<(string, Value)>)
    requires idx + ChunkSize(items) <= |comp|
    ensures |r| == |items|
  {
    Unpacked(items, FieldBytes(comp, idx, items))
  }

  /** Parameter `i`'s bytes are the slice at its offset. */
  lemma {:induction false} FieldBytesAt(comp: seq<byte>, idx: nat, items: seq<(string, ParamDef)>, i: nat)
    requires idx + ChunkSize(items) <= |comp| && i < |items|
    ensures idx + FieldOffset(items, i) + ByteSize(items[i].1.typeCode) <= |comp|
    ensures FieldBytes(comp, idx, items)[i] == comp[idx + FieldOffset(items, i)..idx + FieldOffset(items, i) + ByteSize(items[i].1.typeCode)]
    decreases |items|
  {
    var n := ByteSize(items[0].1.typeCode);
    if i > 0 {
      FieldBytesAt(comp, idx + n, items[1..], i - 1);
      FieldOffsetStep(items, i);
      assert items[1..][i - 1] == items[i];
    } else {
      assert items[..0] == [];
    }
  }

  /** Parameter `i` is named as in the schema and decoded from the bytes at its offset. */
  lemma DecodeFieldsAt(comp: seq<byte>, idx: nat, items: seq<(string, ParamDef)>, i: nat)
    requires idx + ChunkSize(items) <= |comp| && i < |items|
    ensures idx + FieldOffset(items, i) + ByteSize(items[i].1.typeCode) <= |comp|
    ensures var lo := idx + FieldOffset(items, i);
      DecodeFields(comp, idx, items)[i] ==
        (items[i].0, UnpackField(items[i].1.typeCode, comp[lo..lo + ByteSize(items[i].1.typeCode)]))
  {
    FieldBytesAt(comp, idx, items, i);
  }

  /** Decoding reads the first parameter, then the rest from where it ends. */
  lemma DecodeFieldsCons(comp: seq<byte>, idx: nat, items: seq<(string, ParamDef)>)
    requires idx + ChunkSize(items) <= |comp| && |items| > 0
    ensures var n := ByteSize(items[0].1.typeCode);
      idx + n + ChunkSize(items[1..]) <= |comp|
      && DecodeFields(comp, idx, items)
         == [(items[0].0, UnpackField(items[0].1.typeCode, comp[idx..idx + n]))] + DecodeFields(comp, idx + n, items[1..])
  {
    var n := ByteSize(items[0].1.typeCode);
    var raw := FieldBytes(comp, idx, items);
    assert raw[0] == comp[idx..idx + n];
    assert raw[1..] == FieldBytes(comp, idx + n, items[1..]);
    UnpackedCons(items, raw);
  }

  lemma UnpackedCons(items: seq<(string, ParamDef)>, raw: seq<seq<byte>>)
    requires |items| > 0
    requires |raw| == |items| && forall k :: 0 <= k < |items| ==> |raw[k]| == ByteSize(items[k].1.typeCode)
    ensures Unpacked(items, raw) == [(items[0].0, UnpackField(items[0].1.typeCode, raw[0]))] + Unpacked(items[1..], raw[1..])
  {
    var d := Unpacked(items, raw);
    var e := Unpacked(items[1..], raw[1..]);
    forall k | 1 <= k < |items| ensures d[k] == e[k - 1] {
      assert items[1..][k - 1] == items[k];
      assert raw[1..][k - 1] == raw[k];
    }
    assert d == [d[0]] + e;
  }

  /** Past the first parameter, offsets are those of the rest shifted by its size. */
  lemma FieldOffsetStep(items: seq<(string, ParamDef)>, i: nat)
    requires 0 < i <= |items|
    ensures FieldOffset(items, i) == ByteSize(items[0].1.typeCode) + FieldOffset(items[1..], i - 1)
  {
    assert items[..i] == [items[0]] + items[1..][..i - 1];
    assert ([items[0]] + items[1..][..i - 1])[1..] == items[1..][..i - 1];
  }

  /** Unpacking the chunk assigns the decoded pairs in schema order. */
  lemma {:induction false} UnpackCompIsPutAll(comp: seq<byte>, idx: nat, items: seq<(string, ParamDef)>, acc: Dict<string, Value>)
    requires idx + ChunkSize(items) <= |comp|
    ensures UnpackComp(comp, idx, items, acc) == Success(PutAll(acc, DecodeFields(comp, idx, items)))
    decreases |items|
  {
    if |items| > 0 {
      var n := ByteSize(items[0].1.typeCode);
      var d := DecodeFields(comp, idx, items);
      var v := UnpackField(items[0].1.typeCode, comp[idx..idx + n]);
      UnpackCompIsPutAll(comp, idx + n, items[1..], Put(acc, items[0].0, v));
      DecodeFieldsCons(comp, idx, items);
      assert d[0] == (items[0].0, v);
      assert d[1..] == DecodeFields(comp, idx + n, items[1..]);
    }
  }

  lemma DecodeFieldsKeys(comp: seq<byte>, idx: nat, items: seq<(string, ParamDef)>)
    requires idx + ChunkSize(items) <= |comp|
    ensures KeysOf(DecodeFields(comp, idx, items)) == KeysOf(items)
  {
    var d := DecodeFields(comp, idx, items);
    forall i | 0 <= i < |items| ensures KeysOf(d)[i] == KeysOf(items)[i] {
      DecodeFieldsAt(comp, idx, items, i);
    }
  }

  /**
   * A chunk long enough for a schema with distinct names decodes to exactly
   * the schema's names, in schema order, each holding the field at its offset.
   */
  lemma UnpackCompValues(comp: seq<byte>, items: seq<(string, ParamDef)>, i: nat)
    requires ChunkSize(items) <= |comp| && Distinct(KeysOf(items)) && i < |items|
    ensures UnpackComp(comp, 0, items, Empty()).Success?
    ensures Keys(UnpackComp(comp, 0, items, Empty()).value) == KeysOf(items)
    ensures var lo := FieldOffset(items, i);
      lo + ByteSize(items[i].1.typeCode) <= |comp|
      && Get(UnpackComp(comp, 0, items, Empty()).value, items[i].0)
         == Some(UnpackField(items[i].1.typeCode, comp[lo..lo + ByteSize(items[i].1.typeCode)]))
  {
    UnpackCompKeys(comp, items);
    DecodedGet(comp, items, i);
  }

  /** Each name of a schema with distinct names holds the field at its offset. */
  lemma {:induction false} DecodedGet(comp: seq<byte>, items: seq<(string, ParamDef)>, i: nat)
    requires ChunkSize(items) <= |comp| && Distinct(KeysOf(items)) && i < |items|
    ensures var lo := FieldOffset(items, i);
      lo + ByteSize(items[i].1.typeCode) <= |comp|
      && Get(PutAll(Empty(), DecodeFields(comp, 0, items)), items[i].0)
         == Some(UnpackField(items[i].1.typeCode, comp[lo..lo + ByteSize(items[i].1.typeCode)]))
  {
    var d := DecodeFields(comp, 0, items);
    DecodeFieldsAt(comp, 0, items, i);
    DecodeFieldsKeys(comp, 0, items);
    GetOfFreshPairs(d, KeysOf(items), i);
  }

  lemma GetOfFreshPairs(d: seq<(string, Value)>, names: seq<string>, i: nat)
    requires KeysOf(d) == names && Distinct(names) && i < |d|
    ensures Get(PutAll(Empty(), d), d[i].0) == Some(d[i].1)
  {
    PutAllGet(Empty(), d, i);
  }

  /** The chunk decodes to the schema's names, in schema order. */
  lemma UnpackCompKeys(comp: seq<byte>, items: seq<(string, ParamDef)>)
    requires ChunkSize(items) <= |comp| && Distinct(KeysOf(items))
    ensures UnpackComp(comp, 0, items, Empty()) == Success(PutAll(Empty(), DecodeFields(comp, 0, items)))
    ensures Keys(PutAll(Empty(), DecodeFields(comp, 0, items))) == KeysOf(items)
  {
    var d := DecodeFields(comp, 0, items);
    UnpackCompIsPutAll(comp, 0, items, Empty());
    DecodeFieldsKeys(comp, 0, items);
    assert Keys(Empty<string, Value>()) + KeysOf(d) == KeysOf(d);
    PutAllFreshKeys(Empty(), d);
  }

  // ---------------------------------------------------------------------
  // The directory walk

  /**
   * One preset per file, in ascending path order, each named after its
   * file's stem; the files visited are exactly the files given.
   */
  lemma VstPresetToJsonOrder(files: seq<PresetFile>, schema: Schema, endian: Endian, decodeUtf8: seq<byte> -> Option<string>)
    requires VstPresetToJson(files, schema, endian, decodeUtf8).Success?
    ensures var sorted := SortBy(files, PathOf);
      var r := VstPresetToJson(files, schema, endian, decodeUtf8).value;
      && SortedBy(sorted, PathOf) && multiset(sorted) == multiset(files)
      && |r| == |files|
      && (forall i :: 0 <= i < |r| ==>
            ConvertFile(sorted[i], schema, endian, decodeUtf8).Success?
            && r[i] == ConvertFile(sorted[i], schema, endian, decodeUtf8).value)
      && (forall i :: 0 <= i < |r| ==> r[i].name == Stem(FileName(sorted[i].path)))
  {
    var sorted := SortBy(files, PathOf);
    SortByCorrect(files, PathOf);
    var rs := Conversions(sorted, schema, endian, decodeUtf8);
    forall i | 0 <= i < |files|
      ensures ConvertFile(sorted[i], schema, endian, decodeUtf8).Success?
      ensures VstPresetToJson(files, schema, endian, decodeUtf8).value[i] == ConvertFile(sorted[i], schema, endian, decodeUtf8).value
    {
      CollectAt(rs, i);
    }
  }
}
