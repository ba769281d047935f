/**
 * jsontovstpreset.py: write one `*.vstpreset` file per preset of a
 * `*.preset.json`, with the values laid out in schema order as the single
 * component chunk.
 *
 * The class id is looked up by plugin name and written as its ASCII bytes,
 * whatever their number.  `toDouble` stands for the conversion of an
 * integer to a double that `struct.pack("d", n)` performs (it fails for
 * integers too large for a double).
 */
module VstPresetWrite {
  import opened Wrappers
  import opened Bytes
  import opened Text
  import opened OrderedDict
  import opened ParameterSchema
  import opened PresetFormat

  datatype WriteError =
    | UnknownPlugin(plugin: string)   // `data[plugin_name]` raises KeyError
    | ClassIdNotAscii                 // `encode("ascii")` of the class id
    | OffsetTooLarge                  // `struct.pack("q", ...)` of the chunk-list offset
    | MissingParameter(name: string)  // `parameter[param_name]` raises KeyError
    | NotPackable(name: string)       // `struct.pack` rejects the value

  /** b"VST3", b"List" and b"Comp". */
  const HeaderBytes: seq<byte> := [0x56, 0x53, 0x54, 0x33]
  const ListBytes: seq<byte> := [0x4C, 0x69, 0x73, 0x74]
  const CompBytes: seq<byte> := [0x43, 0x6F, 0x6D, 0x70]

  lemma IdBytes()
    ensures AsciiDecode(HeaderBytes) == Some(HeaderId)
    ensures AsciiDecode(ListBytes) == Some(ListId)
    ensures AsciiDecode(CompBytes) == Some(CompId)
  {
    IdBytesOf(HeaderBytes, HeaderId);
    IdBytesOf(ListBytes, ListId);
    IdBytesOf(CompBytes, CompId);
  }

  lemma IdBytesOf(bs: seq<byte>, id: string)
    requires |bs| == |id| && forall i :: 0 <= i < |bs| ==> bs[i] < 128 && bs[i] as int == id[i] as int
    ensures AsciiDecode(bs) == Some(id)
  {
    var r := AsciiDecode(bs).value;
    assert forall i :: 0 <= i < |r| ==> r[i] == id[i];
    assert r == id;
  }

  /** `struct.pack(fmt, v)`: "I" takes an integer in [0, 2^32); "d" takes a float, or an integer `toDouble` converts. */
  function PackValue(t: TypeCode, v: Value, toDouble: int -> Option<Float64>): (r: Option<seq<byte>>)
    ensures r.Some? ==> |r.value| == ByteSize(t)
    ensures t == IntType ==> (r.Some? <==> v.VInt? && 0 <= v.n < TwoTo32)
    ensures t == IntType && r.Some? ==> FromLittleEndian(r.value) == v.n
    ensures t == DoubleType && v.VDouble? ==> r == Some(v.bits)
    ensures t == DoubleType && v.VInt? ==> r == toDouble(v.n)
  {
    match t
    case IntType =>
      if v.VInt? && 0 <= v.n < TwoTo32 then
        Pow256Values();
        LittleEndianRoundTrip(v.n, 4);
        Some(LittleEndian(v.n, 4))
      else None
    case DoubleType =>
      match v
      case VDouble(b) => Some(b)
      case VInt(n) => toDouble(n)
  }

  /** The values of `parameter` packed in schema order: the component chunk. */
  function PackValues(items: seq<(string, ParamDef)>, parameter: Dict<string, Value>, toDouble: int -> Option<Float64>)
    : (r: Result<seq<byte>, WriteError>)
    ensures r.Success? ==> |r.value| == ChunkSize(items)
    ensures r.Failure? ==> r.error.MissingParameter? || r.error.NotPackable?
    decreases |items|
  {
    if |items| == 0 then Success([])
    else
      var name := items[0].0;
      match Get(parameter, name)
      case None => Failure(MissingParameter(name))
      case Some(v) =>
        match PackValue(items[0].1.typeCode, v, toDouble)
        case None => Failure(NotPackable(name))
        case Some(field) =>
          var rest :- PackValues(items[1..], parameter, toDouble);
          Success(field + rest)
  }

  /**
   * The ten fields written for one preset: header id, version, class id,
   * chunk-list offset, the component chunk, then the chunk list ("List",
   * one entry, "Comp", its offset 48 and its size).
   */
  function Layout(classId: seq<byte>, comp: seq<byte>, size: nat): (r: seq<seq<byte>>)
    requires HeaderSize + size < TwoTo63
    ensures |r| == 10 && r[2] == classId && r[4] == comp
    ensures |r[0]| == 4 && |r[1]| == 4 && |r[3]| == 8 && |r[5]| == 4
    ensures |r[6]| == 4 && |r[7]| == 4 && |r[8]| == 8 && |r[9]| == 8
  {
    Pow256Values();
    [HeaderBytes, PackInt32(1).value, classId, PackInt64(HeaderSize + size).value, comp,
     ListBytes, PackInt32(1).value, CompBytes, PackInt64(HeaderSize).value, PackInt64(size).value]
  }

  /** Where each field of the layout starts. */
  lemma LayoutOffsets(classId: seq<byte>, comp: seq<byte>, size: nat)
    requires HeaderSize + size < TwoTo63
    ensures var ps := Layout(classId, comp, size);
      var c, s := |classId|, |comp|;
      && Offset(ps, 1) == 4 && Offset(ps, 2) == 8 && Offset(ps, 3) == 8 + c
      && Offset(ps, 4) == 16 + c && Offset(ps, 5) == 16 + c + s
      && Offset(ps, 6) == 20 + c + s && Offset(ps, 7) == 24 + c + s
      && Offset(ps, 8) == 28 + c + s && Offset(ps, 9) == 36 + c + s
      && Offset(ps, 10) == 44 + c + s
  {
    var ps := Layout(classId, comp, size);
    assert |ps[0]| == 4 && |ps[1]| == 4 && |ps[3]| == 8 && |ps[5]| == 4 && |ps[6]| == 4;
    assert |ps[7]| == 4 && |ps[8]| == 8 && |ps[9]| == 8;
  }

  /** The bytes written for one preset. */
  function EncodePreset(classId: seq<byte>, items: seq<(string, ParamDef)>, parameter: Dict<string, Value>,
                        toDouble: int -> Option<Float64>): (r: Result<seq<byte>, WriteError>)
    ensures r.Success? ==> |r.value| == 44 + |classId| + ChunkSize(items)
    ensures r.Success? <==> HeaderSize + ChunkSize(items) < TwoTo63 && PackValues(items, parameter, toDouble).Success?
    ensures r.Success? ==> r.value == Concat(Layout(classId, PackValues(items, parameter, toDouble).value, ChunkSize(items)))
    ensures r.Failure? && HeaderSize + ChunkSize(items) < TwoTo63 ==>
      r.error == PackValues(items, parameter, toDouble).error
  {
    var size := ChunkSize(items);
    if HeaderSize + size >= TwoTo63 then Failure(OffsetTooLarge)
    else
      var comp :- PackValues(items, parameter, toDouble);
      var ps := Layout(classId, comp, size);
      LayoutOffsets(classId, comp, size);
      Success(Concat(ps))
  }

  /** The file name and contents written for each preset, in list order. */
  function EncodeAll(classId: seq<byte>, items: seq<(string, ParamDef)>, presets: seq<Preset>,
                     toDouble: int -> Option<Float64>): (r: Result<seq<(string, seq<byte>)>, WriteError>)
    ensures r.Success? ==> |r.value| == |presets|
    decreases |presets|
  {
    if |presets| == 0 then Success([])
    else
      var bytes :- EncodePreset(classId, items, presets[0].parameter, toDouble);
      var rest :- EncodeAll(classId, items, presets[1..], toDouble);
      Success([(presets[0].name + ".vstpreset", bytes)] + rest)
  }

  /**
   * `json_to_vstpreset`: the plugin name is the preset file's name up to its
   * first dot; its class id comes from `classIds` (class_id.json).
   */
  function JsonToVstPreset(presetFileName: string, classIds: map<string, string>, schema: Schema,
                           presets: seq<Preset>, toDouble: int -> Option<Float64>)
    : (r: Result<seq<(string, seq<byte>)>, WriteError>)
    ensures BeforeFirstDot(presetFileName) !in classIds ==> r == Failure(UnknownPlugin(BeforeFirstDot(presetFileName)))
    ensures r.Success? ==> |r.value| == |presets|
  {
    var plugin := BeforeFirstDot(presetFileName);
    if plugin !in classIds then Failure(UnknownPlugin(plugin))
    else
      match AsciiEncode(classIds[plugin])
      case None => Failure(ClassIdNotAscii)
      case Some(classId) => EncodeAll(classId, schema.items, presets, toDouble)
  }
}
