/**
 * The two preset scripts against each other: a file jsontovstpreset.py
 * writes, read back by vstpresettojson.py with the same schema, gives the
 * preset it was written from; and a component chunk the reader accepts is
 * the chunk the writer produces from what the reader made of it.
 *
 * The reader takes the class id as exactly 32 bytes, so the round trip
 * holds for class ids of that length (the ids in class_id.json are 32
 * hexadecimal digits).
 */
module PresetRoundTrip {
  import opened Wrappers
  import opened Bytes
  import opened Text
  import opened OrderedDict
  import opened ParameterSchema
  import opened PresetFormat
  import opened VstPresetRead
  import opened VstPresetWrite

  // ---------------------------------------------------------------------
  // Reading single fields back

  lemma ReadAsciiAt(file: seq<byte>, pos: nat, n: nat, piece: seq<byte>, s: string)
    requires Take(file, pos, n) == piece && |piece| == n
    requires AsciiDecode(piece) == Some(s)
    ensures ReadAscii(file, pos, n) == Success((s, pos + n))
  {
  }

  lemma ReadIntAt(file: seq<byte>, pos: nat, n: nat, piece: seq<byte>)
    requires Take(file, pos, n) == piece && |piece| == n
    ensures ReadInt(file, pos, n, Little) == (FromLittleEndian(piece), pos + n)
  {
  }

  // ---------------------------------------------------------------------
  // Reading a written file

  /** The chunk information the reader finds in a written file. */
  function WrittenInfo(classId: string, size: nat): ChunkInfo {
    ChunkInfo(HeaderId, 1, classId, HeaderSize + size, ListId, 1, [ChunkEntry(CompId, HeaderSize, size)])
  }

  /** A chunk list whose one entry is the component chunk of `size` bytes at offset 48. */
  lemma ReadCompEntry(file: seq<byte>, pos: nat, size: nat)
    requires size < TwoTo63
    requires Take(file, pos, 4) == CompBytes
    requires Take(file, pos + 4, 8) == PackInt64(HeaderSize).value
    requires Take(file, pos + 12, 8) == PackInt64(size).value
    ensures ReadEntries(file, pos, 1, Little) == Success(([ChunkEntry(CompId, HeaderSize, size)], pos + 20))
  {
    IdBytes();
    ReadAsciiAt(file, pos, 4, CompBytes, CompId);
    ReadIntAt(file, pos + 4, 8, PackInt64(HeaderSize).value);
    ReadIntAt(file, pos + 12, 8, PackInt64(size).value);
    ReadOneEntry(file, pos, CompId, HeaderSize, size);
  }

  lemma ReadOneEntry(file: seq<byte>, pos: nat, id: string, offset: nat, size: nat)
    requires ReadAscii(file, pos, 4) == Success((id, pos + 4))
    requires ReadInt(file, pos + 4, 8, Little) == (offset, pos + 12)
    requires ReadInt(file, pos + 12, 8, Little) == (size, pos + 20)
    ensures ReadEntries(file, pos, 1, Little) == Success(([ChunkEntry(id, offset, size)], pos + 20))
  {
    assert ReadEntries(file, pos + 20, 0, Little) == Success(([], pos + 20));
    assert [ChunkEntry(id, offset, size)] + [] == [ChunkEntry(id, offset, size)];
  }

  /** The header fields, read from a file that holds them at the offsets the writer uses. */
  lemma ReadHeaderFields(file: seq<byte>, classId: seq<byte>, s: nat)
    requires HeaderSize + s < TwoTo63
    requires |classId| == 32 && AsciiDecode(classId).Some?
    requires Take(file, 0, 4) == HeaderBytes && Take(file, 4, 4) == PackInt32(1).value
    requires Take(file, 8, 32) == classId && Take(file, 40, 8) == PackInt64(HeaderSize + s).value
    ensures ReadAscii(file, 0, 4) == Success((HeaderId, 4))
    ensures ReadInt(file, 4, 4, Little) == (1, 8)
    ensures ReadAscii(file, 8, 32) == Success((AsciiDecode(classId).value, 40))
    ensures ReadInt(file, 40, 8, Little) == (HeaderSize + s, 48)
  {
    IdBytes();
    ReadAsciiAt(file, 0, 4, HeaderBytes, HeaderId);
    ReadIntAt(file, 4, 4, PackInt32(1).value);
    ReadAsciiAt(file, 8, 32, classId, AsciiDecode(classId).value);
    ReadIntAt(file, 40, 8, PackInt64(HeaderSize + s).value);
  }

  /** The chunk list's id and entry count, read at the offset the writer puts them. */
  lemma ReadListHeader(file: seq<byte>, pos: nat)
    requires Take(file, pos, 4) == ListBytes && Take(file, pos + 4, 4) == PackInt32(1).value
    ensures ReadAscii(file, pos, 4) == Success((ListId, pos + 4))
    ensures ReadInt(file, pos + 4, 4, Little) == (1, pos + 8)
  {
    IdBytes();
    ReadAsciiAt(file, pos, 4, ListBytes, ListId);
    ReadIntAt(file, pos + 4, 4, PackInt32(1).value);
  }

  /** One chunk whose section reads as `sec` leaves the dictionary with that section put under its id. */
  lemma ReadOneSection(file: seq<byte>, d: Dict<string, Section>, e: ChunkEntry,
                       decodeUtf8: seq<byte> -> Option<string>, sec: Section)
    requires ReadSection(file, e, decodeUtf8) == Success(sec)
    ensures ReadSections(file, d, [e], decodeUtf8) == Success(Put(d, e.id, sec))
  {
    assert [e][1..] == [];
  }

  /** The component chunk is kept as raw bytes under its id. */
  lemma ReadCompSection(file: seq<byte>, comp: seq<byte>, decodeUtf8: seq<byte> -> Option<string>)
    requires |comp| < TwoTo63 && Take(file, HeaderSize, |comp|) == comp
    ensures ReadSections(file, Empty(), [ChunkEntry(CompId, HeaderSize, |comp|)], decodeUtf8)
      == Success(Dict([(CompId, Raw(comp))]))
  {
    var e := ChunkEntry(CompId, HeaderSize, |comp|);
    assert CompId != InfoId;
    assert ReadSection(file, e, decodeUtf8) == Success(Raw(comp));
    ReadOneSection(file, Empty(), e, decodeUtf8, Raw(comp));
    assert Put(Empty(), CompId, Raw(comp)) == Dict([(CompId, Raw(comp))]);
  }

  /** `read_vstpreset` put together from the reads it makes, each with the result a written file gives. */
  lemma ReadSteps(file: seq<byte>, classId: string, comp: seq<byte>, decodeUtf8: seq<byte> -> Option<string>)
    requires var s := |comp|;
      && HeaderSize + s < TwoTo63
      && ReadAscii(file, 0, 4) == Success((HeaderId, 4))
      && ReadInt(file, 4, 4, Little) == (1, 8)
      && ReadAscii(file, 8, 32) == Success((classId, 40))
      && ReadInt(file, 40, 8, Little) == (HeaderSize + s, 48)
      && ReadAscii(file, HeaderSize + s, 4) == Success((ListId, 52 + s))
      && ReadInt(file, 52 + s, 4, Little) == (1, 56 + s)
      && ReadEntries(file, 56 + s, 1, Little) == Success(([ChunkEntry(CompId, HeaderSize, s)], 76 + s))
      && ReadSections(file, Empty(), [ChunkEntry(CompId, HeaderSize, s)], decodeUtf8) == Success(Dict([(CompId, Raw(comp))]))
    ensures ReadVstPreset(file, Little, decodeUtf8)
      == Success(PresetData(WrittenInfo(classId, |comp|), Dict([(CompId, Raw(comp))])))
  {
  }

  /** The ten fields the writer lays out for a 32-byte class id and a component chunk. */
  predicate IsLayout(ps: seq<seq<byte>>, classId: seq<byte>, comp: seq<byte>)
    requires HeaderSize + |comp| < TwoTo63
  {
    && |ps| == 10 && |classId| == 32
    && ps[0] == HeaderBytes && ps[1] == PackInt32(1).value && ps[2] == classId
    && ps[3] == PackInt64(HeaderSize + |comp|).value && ps[4] == comp
    && ps[5] == ListBytes && ps[6] == PackInt32(1).value && ps[7] == CompBytes
    && ps[8] == PackInt64(HeaderSize).value && ps[9] == PackInt64(|comp|).value
  }

  lemma LayoutIsLayout(classId: seq<byte>, comp: seq<byte>)
    requires HeaderSize + |comp| < TwoTo63 && |classId| == 32
    ensures IsLayout(Layout(classId, comp, |comp|), classId, comp)
  {
  }

  /** Where each field of the layout starts. */
  lemma LayoutStarts(ps: seq<seq<byte>>, classId: seq<byte>, comp: seq<byte>)
    requires HeaderSize + |comp| < TwoTo63 && IsLayout(ps, classId, comp)
    ensures var s := |comp|;
      && Offset(ps, 0) == 0 && Offset(ps, 1) == 4 && Offset(ps, 2) == 8 && Offset(ps, 3) == 40
      && Offset(ps, 4) == HeaderSize && Offset(ps, 5) == 48 + s && Offset(ps, 6) == 52 + s
      && Offset(ps, 7) == 56 + s && Offset(ps, 8) == 60 + s && Offset(ps, 9) == 68 + s
  {
    Pow256Values();
    assert |ps[0]| == 4 && |ps[1]| == 4 && |ps[3]| == 8 && |ps[5]| == 4;
    assert |ps[6]| == 4 && |ps[7]| == 4 && |ps[8]| == 8;
  }

  /** The header of a laid-out file reads back as written. */
  lemma ReadLayoutHeader(ps: seq<seq<byte>>, classId: seq<byte>, comp: seq<byte>)
    requires HeaderSize + |comp| < TwoTo63 && IsLayout(ps, classId, comp) && AsciiDecode(classId).Some?
    ensures ReadAscii(Concat(ps), 0, 4) == Success((HeaderId, 4))
    ensures ReadInt(Concat(ps), 4, 4, Little) == (1, 8)
    ensures ReadAscii(Concat(ps), 8, 32) == Success((AsciiDecode(classId).value, 40))
    ensures ReadInt(Concat(ps), 40, 8, Little) == (HeaderSize + |comp|, 48)
  {
    LayoutStarts(ps, classId, comp);
    TakeField(ps, 0);
    TakeField(ps, 1);
    TakeField(ps, 2);
    TakeField(ps, 3);
    ReadHeaderFields(Concat(ps), classId, |comp|);
  }

  /** The chunk list of a laid-out file reads back as the one component entry. */
  lemma ReadLayoutList(ps: seq<seq<byte>>, classId: seq<byte>, comp: seq<byte>)
    requires HeaderSize + |comp| < TwoTo63 && IsLayout(ps, classId, comp)
    ensures var s := |comp|;
      && ReadAscii(Concat(ps), HeaderSize + s, 4) == Success((ListId, 52 + s))
      && ReadInt(Concat(ps), 52 + s, 4, Little) == (1, 56 + s)
      && ReadEntries(Concat(ps), 56 + s, 1, Little) == Success(([ChunkEntry(CompId, HeaderSize, s)], 76 + s))
  {
    LayoutStarts(ps, classId, comp);
    TakeField(ps, 5);
    TakeField(ps, 6);
    TakeField(ps, 7);
    TakeField(ps, 8);
    TakeField(ps, 9);
    ReadListHeader(Concat(ps), 48 + |comp|);
    ReadCompEntry(Concat(ps), 56 + |comp|, |comp|);
  }

  /** The component chunk of a laid-out file is its section "Comp". */
  lemma ReadLayoutComp(ps: seq<seq<byte>>, classId: seq<byte>, comp: seq<byte>, decodeUtf8: seq<byte> -> Option<string>)
    requires HeaderSize + |comp| < TwoTo63 && IsLayout(ps, classId, comp)
    ensures ReadSections(Concat(ps), Empty(), [ChunkEntry(CompId, HeaderSize, |comp|)], decodeUtf8)
      == Success(Dict([(CompId, Raw(comp))]))
  {
    LayoutStarts(ps, classId, comp);
    TakeField(ps, 4);
    ReadCompSection(Concat(ps), comp, decodeUtf8);
  }

  /**
   * The reader takes a written file apart into exactly what was written: the
   * header fields, a chunk list with the one component entry, and the
   * component chunk's bytes.
   */
  lemma ReadWritten(classId: seq<byte>, comp: seq<byte>, decodeUtf8: seq<byte> -> Option<string>)
    requires HeaderSize + |comp| < TwoTo63
    requires |classId| == 32 && AsciiDecode(classId).Some?
    ensures ReadVstPreset(Concat(Layout(classId, comp, |comp|)), Little, decodeUtf8)
      == Success(PresetData(WrittenInfo(AsciiDecode(classId).value, |comp|), Dict([(CompId, Raw(comp))])))
  {
    var ps := Layout(classId, comp, |comp|);
    LayoutIsLayout(classId, comp);
    ReadLayoutHeader(ps, classId, comp);
    ReadLayoutList(ps, classId, comp);
    ReadLayoutComp(ps, classId, comp, decodeUtf8);
    ReadSteps(Concat(ps), AsciiDecode(classId).value, comp, decodeUtf8);
  }

  /** The container a preset is written into reads back as written: "VST3", version 1, one "Comp" entry at 48 holding the chunk. */
  lemma EncodedContainer(classId: seq<byte>, items: seq<(string, ParamDef)>, parameter: Dict<string, Value>,
                         toDouble: int -> Option<Float64>, decodeUtf8: seq<byte> -> Option<string>)
    requires |classId| == 32 && AsciiDecode(classId).Some?
    requires EncodePreset(classId, items, parameter, toDouble).Success?
    ensures PackValues(items, parameter, toDouble).Success?
    ensures var comp := PackValues(items, parameter, toDouble).value;
      ReadVstPreset(EncodePreset(classId, items, parameter, toDouble).value, Little, decodeUtf8)
      == Success(PresetData(WrittenInfo(AsciiDecode(classId).value, ChunkSize(items)), Dict([(CompId, Raw(comp))])))
  {
    var comp := PackValues(items, parameter, toDouble).value;
    ReadWritten(classId, comp, decodeUtf8);
  }

  // ---------------------------------------------------------------------
  // Values

  /**
   * What a value packed under type `t` reads back as: itself, except that an
   * integer stored in a "d" field comes back as the double it was converted to.
   */
  function ReadBack(t: TypeCode, v: Value, toDouble: int -> Option<Float64>): Value
    requires PackValue(t, v, toDouble).Some?
  {
    if t == DoubleType && v.VInt? then VDouble(toDouble(v.n).value) else v
  }

  lemma UnpackPacked(t: TypeCode, v: Value, toDouble: int -> Option<Float64>)
    requires PackValue(t, v, toDouble).Some?
    ensures UnpackField(t, PackValue(t, v, toDouble).value) == ReadBack(t, v, toDouble)
  {
  }

  /** Packing a decoded field gives back its bytes. */
  lemma PackUnpacked(t: TypeCode, field: seq<byte>, toDouble: int -> Option<Float64>)
    requires |field| == ByteSize(t)
    ensures PackValue(t, UnpackField(t, field), toDouble) == Some(field)
  {
    if t == IntType {
      Pow256Values();
      LittleEndianOfDecoded(field);
    }
  }

  /** Parameter `i` has a value in `parameter` that packs, and its bytes sit at the parameter's offset in `comp`. */
  predicate PackedAt(items: seq<(string, ParamDef)>, parameter: Dict<string, Value>, toDouble: int -> Option<Float64>,
                     comp: seq<byte>, i: nat)
    requires i < |items|
  {
    var name, t, lo := items[i].0, items[i].1.typeCode, FieldOffset(items, i);
    && Get(parameter, name).Some?
    && PackValue(t, Get(parameter, name).value, toDouble).Some?
    && lo + ByteSize(t) <= |comp|
    && comp[lo..lo + ByteSize(t)] == PackValue(t, Get(parameter, name).value, toDouble).value
  }

  /** Parameter `i` of the schema is packed at its offset in the chunk. */
  lemma {:induction false} PackValuesAt(items: seq<(string, ParamDef)>, parameter: Dict<string, Value>,
                                        toDouble: int -> Option<Float64>, i: nat)
    requires PackValues(items, parameter, toDouble).Success? && i < |items|
    ensures PackedAt(items, parameter, toDouble, PackValues(items, parameter, toDouble).value, i)
    decreases |items|
  {
    PackValuesCons(items, parameter, toDouble);
    var field := PackValue(items[0].1.typeCode, Get(parameter, items[0].0).value, toDouble).value;
    var rest := PackValues(items[1..], parameter, toDouble).value;
    if i == 0 {
      assert items[..0] == [];
    } else {
      PackValuesAt(items[1..], parameter, toDouble, i - 1);
      PackedAtCons(items, parameter, toDouble, field, rest, i);
    }
  }

  /** Putting the first parameter's bytes in front moves every later parameter back by their length. */
  lemma PackedAtCons(items: seq<(string, ParamDef)>, parameter: Dict<string, Value>, toDouble: int -> Option<Float64>,
                     field: seq<byte>, rest: seq<byte>, i: nat)
    requires 0 < i < |items| && |field| == ByteSize(items[0].1.typeCode)
    requires PackedAt(items[1..], parameter, toDouble, rest, i - 1)
    ensures PackedAt(items, parameter, toDouble, field + rest, i)
  {
    var lo, n := FieldOffset(items[1..], i - 1), ByteSize(items[i].1.typeCode);
    assert items[1..][i - 1] == items[i];
    FieldOffsetStep(items, i);
    SliceAfter(field, rest, lo, n);
  }

  /** A successful pack is the first field's bytes followed by the rest packed. */
  lemma PackValuesCons(items: seq<(string, ParamDef)>, parameter: Dict<string, Value>, toDouble: int -> Option<Float64>)
    requires PackValues(items, parameter, toDouble).Success? && |items| > 0
    ensures Get(parameter, items[0].0).Some?
    ensures PackValue(items[0].1.typeCode, Get(parameter, items[0].0).value, toDouble).Some?
    ensures PackValues(items[1..], parameter, toDouble).Success?
    ensures PackValues(items, parameter, toDouble).value
      == PackValue(items[0].1.typeCode, Get(parameter, items[0].0).value, toDouble).value
         + PackValues(items[1..], parameter, toDouble).value
  {
  }

  lemma SliceAfter(field: seq<byte>, rest: seq<byte>, lo: nat, n: nat)
    requires lo + n <= |rest|
    ensures (field + rest)[|field| + lo..|field| + lo + n] == rest[lo..lo + n]
  {
  }

  /**
   * A preset written with a schema of distinct names reads back with the same
   * schema as a preset named after the file, holding exactly the schema's
   * names, each with the value written for it.
   */
  lemma EncodeThenConvert(classId: seq<byte>, items: seq<(string, ParamDef)>, parameter: Dict<string, Value>,
                          toDouble: int -> Option<Float64>, decodeUtf8: seq<byte> -> Option<string>,
                          path: seq<string>, i: nat)
    requires |classId| == 32 && AsciiDecode(classId).Some? && Distinct(KeysOf(items))
    requires EncodePreset(classId, items, parameter, toDouble).Success? && i < |items|
    ensures var f := PresetFile(path, EncodePreset(classId, items, parameter, toDouble).value);
      var r := ConvertFile(f, Dict(items), Little, decodeUtf8);
      && r.Success? && r.value.name == Stem(FileName(path))
      && Keys(r.value.parameter) == KeysOf(items)
      && Get(parameter, items[i].0).Some?
      && PackValue(items[i].1.typeCode, Get(parameter, items[i].0).value, toDouble).Some?
      && Get(r.value.parameter, items[i].0) == Some(ReadBack(items[i].1.typeCode, Get(parameter, items[i].0).value, toDouble))
  {
    var comp := PackValues(items, parameter, toDouble).value;
    var file := EncodePreset(classId, items, parameter, toDouble).value;
    EncodedContainer(classId, items, parameter, toDouble, decodeUtf8);
    assert Get(Dict([(CompId, Raw(comp))]), CompId) == Some(Raw(comp)) by {
      assert Dict([(CompId, Raw(comp))]) == Put(Empty(), CompId, Raw(comp));
    }
    UnpackCompValues(comp, items, i);
    PackValuesAt(items, parameter, toDouble, i);
    assert PackedAt(items, parameter, toDouble, comp, i);
    UnpackPacked(items[i].1.typeCode, Get(parameter, items[i].0).value, toDouble);
  }

  /**
   * The other way round: a chunk of exactly the schema's size, unpacked and
   * packed again with the same schema, gives back the same bytes.
   */
  lemma UnpackThenPack(comp: seq<byte>, items: seq<(string, ParamDef)>, toDouble: int -> Option<Float64>)
    requires ChunkSize(items) == |comp| && Distinct(KeysOf(items))
    ensures UnpackComp(comp, 0, items, Empty()).Success?
    ensures PackValues(items, UnpackComp(comp, 0, items, Empty()).value, toDouble) == Success(comp)
  {
    var d := DecodeFields(comp, 0, items);
    var dict := PutAll(Empty(), d);
    UnpackCompKeys(comp, items);
    DecodeFieldsKeys(comp, 0, items);
    forall k | 0 <= k < |d|
      ensures Get(dict, d[k].0) == Some(d[k].1)
    {
      GetOfFreshPairs(d, KeysOf(items), k);
    }
    PackDecoded(comp, 0, items, dict, d, toDouble);
    assert comp[0..] == comp;
  }

  /** Packing, from `dict`, the pairs decoded from `idx` on gives back the bytes they were decoded from. */
  lemma {:induction false} PackDecoded(comp: seq<byte>, idx: nat, items: seq<(string, ParamDef)>,
                                       dict: Dict<string, Value>, d: seq<(string, Value)>,
                                       toDouble: int -> Option<Float64>)
    requires idx + ChunkSize(items) == |comp| && d == DecodeFields(comp, idx, items)
    requires forall p :: p in d ==> Get(dict, p.0) == Some(p.1)
    ensures PackValues(items, dict, toDouble) == Success(comp[idx..])
    decreases |items|
  {
    if |items| > 0 {
      var t, n := items[0].1.typeCode, ByteSize(items[0].1.typeCode);
      var field := comp[idx..idx + n];
      var d' := DecodeFields(comp, idx + n, items[1..]);
      assert d == [(items[0].0, UnpackField(t, field))] + d' by {
        DecodeFieldsCons(comp, idx, items);
      }
      assert Get(dict, items[0].0) == Some(UnpackField(t, field)) by {
        assert d[0] in d;
      }
      assert PackValue(t, UnpackField(t, field), toDouble) == Some(field) by {
        PackUnpacked(t, field, toDouble);
      }
      assert PackValues(items[1..], dict, toDouble) == Success(comp[idx + n..]) by {
        assert forall p :: p in d' ==> p in d;
        PackDecoded(comp, idx + n, items[1..], dict, d', toDouble);
      }
      assert comp[idx..] == field + comp[idx + n..];
    } else {
      assert comp[idx..] == [];
    }
  }

  // ---------------------------------------------------------------------
  // File names

  /** A file written as `name + ".vstpreset"` has `name` as its stem, unless the name is empty. */
  lemma StemOfWritten(name: string)
    requires |name| > 0
    ensures Stem(name + ".vstpreset") == name
  {
    var full := name + ".vstpreset";
    assert OccursAt(full, ".", |name|) by {
      assert full[|name|..|name| + 1] == ".";
    }
    forall j: nat | |name| < j
      ensures !OccursAt(full, ".", j)
    {
      if j < |full| {
        assert full[j] == ".vstpreset"[j - |name|];
        assert full[j..j + 1][0] == full[j];
      }
    }
  }
}
