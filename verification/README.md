# A Dafny model of ryukau's LV2 plugin preset tools and CV state machines

The project models two parts of the repository.

**The preset toolchain under `preset/`.** It has four scripts:
- `extractparameter.py` turns a plugin's `parameter.hpp` into a parameter schema. It numbers the `ParameterID` enum, works out each entry's range, maps each value class to a `struct` format ("I" or "d"), and expands array constructions.
- `vstpresettojson.py` reads VST 3 preset containers. A container is a 48-byte header, a component chunk and a "List" directory. The script unpacks the component chunk field by field, following the schema.
- `jsontovstpreset.py` writes those containers.
- `jsontocpp.py` generates the `loadProgram` switch, the `Preset` enum and the `programName` array.

**Small state machines of the CV plugins under `lv2cvport/`:**
- CV_Gate16's `Gate` and its `IntDelay` ring buffer;
- the looping envelopes of CV_PolyLoopEnvelope (eight sections) and CV_PolyLoopEnvelope2 (two sections);
- CV_ExpLoopEnvelope's envelope, with its release tail;
- the note stack, the gate edges and the frame-keyed MIDI event queue of CV_PolyLoopEnvelope's DSP core.

Everything is pure. Bytes are `seq<byte>`, where `byte` is the integer newtype 0..255 of `bytes.dfy`; dictionaries are insertion-ordered association lists (`OrderedDict`), and state machines are immutable records. Each operation returns the new state together with its output.

Modules, in dependency order:

| module | file | models |
|---|---|---|
| Wrappers | wrappers.dfy | `Option`, `Result`, collecting a sequence of results |
| Bytes | bytes.dfy | little/big-endian integers, `struct.pack` of "i" and "q", ASCII |
| Text | text.dfy | `str.strip`, `replace`, `find`, `rpartition`, `int()`, the `float()` literal grammar, code-point string order |
| OrderedDict | ordered_dict.dfy | Python `dict` assignment and key order |
| Sorting | sorting.dfy | Python's stable `sorted` on string keys and on `Path` parts |
| ParameterSchema | parameter_schema.dfy | `extractparameter.py` |
| PresetFormat | preset_format.dfy | the container layout shared by reader and writer |
| VstPresetRead | vst_preset_read.dfy | `vstpresettojson.py` |
| VstPresetWrite | vst_preset_write.dfy | `jsontovstpreset.py` |
| PresetRoundTrip | preset_round_trip.dfy | the reader against the writer |
| PresetCode | preset_code.dfy | `jsontocpp.py` |
| CvGate | gate.dfy | CV_Gate16 `Gate` and `IntDelay` |
| LoopEnvelope | loop_envelope.dfy | both PolyLoopEnvelope builds, and the time and level getters the envelopes share |
| ExpLoopEnvelope | exp_loop_envelope.dfy | CV_ExpLoopEnvelope's envelope |
| PolyLoopCore | poly_loop_core.dfy | CV_PolyLoopEnvelope's `DSPCore` note and event handling |

Where the code and its accompanying description differ, the model follows the code. The exception is code that is evidently wrong (see "## Findings"): there the code as written is modelled beside a corrected definition, and the rest of the model runs the corrected one.
- The class id is written with no padding, so the header is 48 bytes only for a 32-character id.
- The chunk-list offsets and sizes are never checked against the file length. A read past the end yields fewer bytes. Only an offset or size of 2^63 or more fails, because Python's `seek` and `read` cannot take it.
- `bypass` is forced to 0 only by `jsontocpp.py`. The binary writer stores the value it is given.
- Component fields are unpacked with the bare `struct` format (native order), whatever endianness the header was read with. The model takes native order to be little-endian.
- In CV_ExpLoopEnvelope, `nSections` is the index of the last section (7), so `setLoop` keeps an end of 7. The other builds keep only ends below their section count.

## Model

| member | source | states |
|---|---|---|
| Wrappers.CollectAt | preset/vstpresettojson.py:109-133 | when the collected results succeed, entry i of the result is the value of input i |
| Wrappers.CollectFails | preset/vstpresettojson.py:109-133 | the collection fails with the error of the first failing input, so one bad file stops the conversion |
| Bytes.LittleEndianRoundTrip | preset/jsontovstpreset.py:36-46 | an integer below 256^w packed into w little-endian bytes reads back as itself |
| Bytes.LittleEndianOfDecoded | preset/vstpresettojson.py:52-60 | w bytes read as an integer and packed again give the same bytes |
| Bytes.FromLittleEndianInjective | preset/vstpresettojson.py:52-60 | two byte strings of one length that decode to the same integer are equal |
| Bytes.PackInt32 | preset/jsontovstpreset.py:36 | `struct.pack("i", n)` for n >= 0: it succeeds exactly for n < 2^31, and gives 4 bytes that decode to n |
| Bytes.PackInt64 | preset/jsontovstpreset.py:38 | `struct.pack("q", n)` for n >= 0: it succeeds exactly for n < 2^63, and gives 8 bytes that decode to n |
| Bytes.AsciiDecode | preset/vstpresettojson.py:49-53 | decoding succeeds exactly when every byte is below 128, and character i is byte i |
| Bytes.AsciiEncode | preset/jsontovstpreset.py:29 | `.encode("ascii")` succeeds exactly for ASCII text, one byte per character |
| Bytes.AsciiRoundTrip | preset/jsontovstpreset.py:29 | ASCII text encoded and decoded again is the same text |
| Text.ParseIntOfDecimal | preset/extractparameter.py:8-10 | `int()` of an integer's decimal spelling is that integer |
| Text.ParseIntRejects | preset/extractparameter.py:8-10 | `int()` rejects text holding any character other than whitespace, digits, `_`, `+` and `-` |
| Text.NatToDecimalInjective | preset/extractparameter.py:78-86 | distinct element numbers are spelled differently, so array element names differ |
| Text.StrLessTransitive | preset/jsontocpp.py:14 | the code-point order `sorted` uses on names is transitive |
| Text.StrLessTotal | preset/jsontocpp.py:14 | any two distinct names are ordered one way or the other |
| OrderedDict.Put | preset/extractparameter.py:81-95 | `d[k] = v`: k then maps to v, and a new key goes last while an existing key keeps its place |
| OrderedDict.PutAllKeys | preset/extractparameter.py:64-95 | after a run of assignments the keys are the old keys, then each new key in order of first assignment |
| OrderedDict.PutAllGet | preset/extractparameter.py:64-95 | after assigning pairs with distinct keys, each key maps to its own value |
| OrderedDict.PutAllUntouched | preset/extractparameter.py:64-95 | a key that is not assigned keeps its value |
| OrderedDict.PutAllConcat | preset/extractparameter.py:64-95 | assigning two runs one after the other is assigning their concatenation |
| Sorting.SortByCorrect | preset/jsontocpp.py:14 | `sorted` output ascends by key, is a permutation of the input, and keeps elements of equal key in input order |
| Sorting.PartsLessOfNames | preset/vstpresettojson.py:109 | paths of one part compare as their names do |
| Sorting.PartsLessTransitive | preset/vstpresettojson.py:109 | `Path` order is transitive |
| Sorting.PartsLessTotal | preset/vstpresettojson.py:109 | distinct paths are ordered one way or the other |
| ParameterSchema.ByteSize | preset/vstpresettojson.py:124-125 | `struct.calcsize` of a schema type is 4 or 8 |
| ParameterSchema.ConvertStringCases | preset/extractparameter.py:6-19 | a default is an int exactly when `int()` accepts it; otherwise a float exactly when `float()` does; otherwise "true" or "false" become booleans; otherwise it stays text |
| ParameterSchema.ConvertStringOfDecimal | preset/extractparameter.py:6-9 | an integer default written in decimal converts to that integer |
| ParameterSchema.BoolLiteralNotNumber | preset/extractparameter.py:8-17 | "true" and "false" are neither integers nor floats, so they reach the boolean cases |
| ParameterSchema.CleanEnumLinesAppend | preset/extractparameter.py:26-30 | cleaning works line by line over a concatenation |
| ParameterSchema.CommentLineIgnored | preset/extractparameter.py:26-30 | a blank line or a line with `//`, anywhere in the enum body, leaves the enum table unchanged |
| ParameterSchema.KeptLine | preset/extractparameter.py:26-30 | any other line is kept, stripped, with its commas removed |
| ParameterSchema.NumberLinesStep | preset/extractparameter.py:32-41 | entry i is numbered from the index of entry i-1, or from -1 for the first |
| ParameterSchema.NumberLinesFails | preset/extractparameter.py:32-41 | if some line cannot be numbered after the lines before it, numbering fails |
| ParameterSchema.NumberLinesBare | preset/extractparameter.py:32-37 | without assignments the entries are numbered prev+1, prev+2, ... |
| ParameterSchema.NumberLineOfDecimal | preset/extractparameter.py:34-41 | `name = n` sets the index to n, whatever came before |
| ParameterSchema.NumberLineOfAssignment | preset/extractparameter.py:34-41 | `name = value` is parsed with spaces removed: an integer value becomes the index, anything else fails |
| ParameterSchema.RejectedAssignment | preset/extractparameter.py:39-40 | an assignment whose right side `int()` rejects fails with the offending line |
| ParameterSchema.L4ReverbNumberingStops | L4Reverb/parameter.hpp:42-43 | numbering L4Reverb's enum fails at its second line, `innerFeed0 = nDepth1`, whatever follows, so extraction of that header stops there |
| ParameterSchema.L4ReverbExpressionRejected | L4Reverb/parameter.hpp:46 | the later line `d3Feed0 = 3 * nDepth1 + nDepth2` would be rejected too: `int()` does not evaluate arithmetic |
| ParameterSchema.ToTableDomain | preset/extractparameter.py:48-51 | the table holds exactly the names that occur |
| ParameterSchema.ToTableLast | preset/extractparameter.py:48-51 | a repeated name keeps the information of its last occurrence |
| ParameterSchema.GetEnumRangeDomain | preset/extractparameter.py:21-52 | `get_enum_range` succeeds exactly when every line is numbered and the body is not empty; its names are all entries except the terminator |
| ParameterSchema.RangeTableDomain | preset/extractparameter.py:43-51 | the table holds the names of all entries but the last |
| ParameterSchema.GetEnumRangeEntry | preset/extractparameter.py:43-51 | an entry's range is the next entry's index minus its own |
| ParameterSchema.CubicPadSynthWavetableRange | CubicPadSynth/parameter.hpp:52-56 | `lfoWavetable0 = 1441`, a comment line, then `tableBaseFrequency = 1505` give `lfoWavetable0` index 1441 and range 64 |
| ParameterSchema.TypeOf | preset/extractparameter.py:69-73 | the type is "I" exactly for `IntValue`, and "d" for every other value class |
| ParameterSchema.Expand | preset/extractparameter.py:75-95 | a scalar target gives one entry keyed and indexed by itself. An array target over a known base gives `range` entries with the base's type, scale and flags. An unknown base is an error |
| ParameterSchema.ArrayKeysDistinct | preset/extractparameter.py:78-86 | one array's element names are distinct |
| ParameterSchema.ArrayDefaultWithoutIdx | preset/extractparameter.py:79-80 | a default without "idx" is the same for every element |
| ParameterSchema.ExpandAllFails | preset/extractparameter.py:75-87 | the statements fail exactly when one of them is an array over a name the enum lacks |
| ParameterSchema.AssignIsPutAll | preset/extractparameter.py:64-95 | assigning statement by statement is assigning all their entries in one sweep |
| ParameterSchema.ExtractParameterOrder | preset/extractparameter.py:54-100 | the schema's keys are the generated names in order of first assignment; with no name generated twice, it is exactly the generated entries in statement order |
| PresetFormat.Take | preset/vstpresettojson.py:49-89 | `read(n)` returns the n bytes at the position when they exist, and fewer (never bytes past the end) near the end |
| PresetFormat.TakePiece | preset/vstpresettojson.py:49-89 | reading a piece back at the position it was written at gives the piece |
| PresetFormat.ChunkSizeAppend | preset/jsontovstpreset.py:20-22 | the component size of a concatenated schema is the sum of the sizes |
| PresetFormat.WrittenPrefix | preset/jsontovstpreset.py:35-46 | later writes leave earlier bytes in place |
| PresetFormat.TakeField | preset/jsontovstpreset.py:35-46 | field i reads back at the offset equal to the lengths of the fields before it |
| VstPresetRead.ReadAscii | preset/vstpresettojson.py:49-60 | an ASCII read succeeds exactly when the bytes there are ASCII, yields them as text, and leaves the file where a full read would have, as far as later reads can tell |
| VstPresetRead.ReadInt | preset/vstpresettojson.py:52-60 | an integer read is the value of the (possibly short) bytes at the position, below 256^n, and leaves the file where a full read would have, as far as later reads can tell |
| VstPresetRead.EntriesSamePlace | preset/vstpresettojson.py:62-66 | a list read from a position a short read reached holds the same entries as one read from the nominal position |
| VstPresetRead.ReadEntries | preset/vstpresettojson.py:62-76 | the loop succeeds exactly when every entry id is ASCII; it then yields `count` entries, entry k holding the id, offset and size encoded 20k bytes on from where the loop starts |
| VstPresetRead.ReadChunkList | preset/vstpresettojson.py:57-76 | after the seek, the list id is the 4 bytes at the offset, the count the 4 bytes after it, and the entries start 8 bytes on |
| VstPresetRead.ReadSection | preset/vstpresettojson.py:80-89 | an offset or size of 2^63 or more fails; otherwise a chunk is exactly the bytes at its offset, and the Info chunk is those bytes decoded as UTF-8, failing when they do not decode |
| VstPresetRead.ReadSectionsIsPutAll | preset/vstpresettojson.py:80-89 | reading the chunks succeeds exactly when every chunk can be read, and then is the dictionary assignment of each entry's chunk under its id in list order (a repeated id keeps its first place and takes the later chunk) |
| VstPresetRead.ReadVstPreset | preset/vstpresettojson.py:35-90 | for any file: non-ASCII first bytes fail as such and other first bytes than "VST3" fail as not a preset; a chunk-list offset of 2^63 or more fails the seek; a successful read holds the version, class id and chunk-list offset of bytes 4-7, 8-39 and 40-47, the list id and count at the chunk-list offset, entry k 8+20k bytes after it, and each chunk assigned in list order |
| VstPresetRead.UnpackComp | preset/vstpresettojson.py:119-128 | unpacking succeeds exactly when the chunk holds the schema's total size from the cursor on; otherwise it fails as truncated |
| VstPresetRead.FieldOffset | preset/vstpresettojson.py:119-128 | parameter i starts at the sum of the earlier sizes and ends inside the chunk |
| VstPresetRead.FieldBytesAt | preset/vstpresettojson.py:119-128 | parameter i is unpacked from the slice at its offset, of its type's size |
| VstPresetRead.DecodeFieldsAt | preset/vstpresettojson.py:119-128 | the pair for parameter i is its schema name and the value of its slice |
| VstPresetRead.UnpackCompIsPutAll | preset/vstpresettojson.py:119-128 | unpacking is assigning the decoded pairs in schema order |
| VstPresetRead.DecodeFieldsKeys | preset/vstpresettojson.py:119-128 | the decoded names are the schema's names in order |
| VstPresetRead.UnpackCompValues | preset/vstpresettojson.py:119-128 | a long enough chunk decodes to exactly the schema's names, each holding the field at its offset. Trailing bytes are ignored |
| VstPresetRead.DecodedGet | preset/vstpresettojson.py:119-128 | with distinct names, each name maps to the value of its own field |
| VstPresetRead.UnpackCompKeys | preset/vstpresettojson.py:119-128 | a chunk long enough for a schema with distinct names decodes to the schema's names in schema order |
| VstPresetRead.Stem | preset/vstpresettojson.py:131 | a file's stem is a prefix of its name |
| VstPresetRead.ConvertFile | preset/vstpresettojson.py:113-133 | a converted preset is named after its file's stem |
| VstPresetRead.Conversions | preset/vstpresettojson.py:109-133 | each file is converted on its own, in order |
| VstPresetRead.VstPresetToJsonOrder | preset/vstpresettojson.py:92-138 | one preset per file, in ascending path order, each the conversion of its file and named after its stem |
| VstPresetWrite.IdBytes | preset/jsontovstpreset.py:35-44 | the bytes written for "VST3", "List" and "Comp" decode to those ids |
| VstPresetWrite.PackValue | preset/jsontovstpreset.py:41 | an "I" field packs exactly an integer in [0, 2^32) into 4 bytes that decode to it. A "d" field packs a float's bytes, or an integer converted to double |
| VstPresetWrite.PackValues | preset/jsontovstpreset.py:39-41 | the packed values take exactly the schema's total size. A schema name missing from the preset, or a value that cannot be packed, fails |
| VstPresetWrite.Layout | preset/jsontovstpreset.py:35-46 | ten fields: the 4-byte header id and version, the class id as given, the 8-byte offset, the chunk, then "List", a count of 1, "Comp", offset 48 and the size |
| VstPresetWrite.LayoutOffsets | preset/jsontovstpreset.py:35-46 | where each field starts: the chunk at 16 plus the id length, and the list right after it |
| VstPresetWrite.EncodePreset | preset/jsontovstpreset.py:20-46 | a file is 44 + id length + chunk size bytes long, and succeeds exactly when the values pack and the offset fits a "q" |
| VstPresetWrite.EncodeAll | preset/jsontovstpreset.py:33-46 | one file per preset |
| VstPresetWrite.JsonToVstPreset | preset/jsontovstpreset.py:8-46 | a plugin missing from the class-id table fails, and otherwise there is one file per preset |
| PresetRoundTrip.ReadWritten | preset/jsontovstpreset.py:35-46 | a written container with a 32-byte id reads back as "VST3", version 1, that id, list offset 48 + size, and one "Comp" entry at 48 holding the chunk |
| PresetRoundTrip.EncodedContainer | preset/jsontovstpreset.py:35-46 | the container an encoded preset is written into reads back as written |
| PresetRoundTrip.UnpackPacked | preset/jsontovstpreset.py:41 | a packed value unpacks to itself, except that an integer in a "d" field becomes its double |
| PresetRoundTrip.PackUnpacked | preset/vstpresettojson.py:125 | packing an unpacked field gives back its bytes |
| PresetRoundTrip.PackValuesAt | preset/jsontovstpreset.py:39-41 | parameter i's packed bytes sit at its offset in the chunk |
| PresetRoundTrip.EncodeThenConvert | preset/jsontovstpreset.py:35-46 | a written preset read back with the same schema holds exactly the schema's names, each with the value written for it, and is named after the file |
| PresetRoundTrip.UnpackThenPack | preset/vstpresettojson.py:119-128 | a chunk of exactly the schema's size, unpacked and packed again, gives the same bytes |
| PresetRoundTrip.StemOfWritten | preset/jsontovstpreset.py:34 | a file written as `name.vstpreset` has stem `name` |
| PresetCode.OrderPresets | preset/jsontocpp.py:11-15 | ordering keeps the number of presets |
| PresetCode.OrderPresetsCorrect | preset/jsontocpp.py:11-15 | ordering fails exactly when no preset is "Default". Otherwise the first "Default" leads, the rest ascend by name with ties in input order, and nothing is lost or added |
| PresetCode.ParameterLine | preset/jsontocpp.py:40-51 | a parameter missing from the schema fails. Otherwise the line addresses its ID, uses `setFromInt` exactly for "I", and passes 0 for "bypass" |
| PresetCode.ParameterLines | preset/jsontocpp.py:40-51 | one assignment per preset parameter, in the preset's order; it fails exactly when some name is missing from the schema |
| PresetCode.CaseBlocksSucceed | preset/jsontocpp.py:37-53 | the case blocks fail exactly when some preset has a parameter the schema lacks |
| PresetCode.CaseBlocksLabels | preset/jsontocpp.py:37-53 | the blocks name one case per preset, prefixed, in preset order |
| PresetCode.LoadProgramCorrect | preset/jsontocpp.py:22-54 | the switch opens with the `default:` case that resets every parameter, followed by one case per preset in order |
| PresetCode.EnumFileReadBack | preset/jsontocpp.py:62-73 | the enum file reads back as the prefixed names, then an array sized to the number of names holding the names in the same order |
| PresetCode.JsonToCpp | preset/jsontocpp.py:58-59 | the generated files are named after the part of the preset file name before its first dot |
| PresetCode.JsonToCppCorrect | preset/jsontocpp.py:5-76 | generation fails exactly when no preset is "Default" or some parameter is unknown. Otherwise switch case k, enum identifier k and name k agree, "Default" is ordinal 0 and the rest ascend |
| CvGate.SetType | lv2cvport/CV_Gate16/dsp/gate.hpp:78-86 | the gate is open exactly when the type is Gate and a note is held, or the type is DC |
| CvGate.Reset | lv2cvport/CV_Gate16/dsp/gate.hpp:88-93 | the gate is closed with no delay |
| CvGate.Trigger | lv2cvport/CV_Gate16/dsp/gate.hpp:95-99 | the gate opens with the given delay, or none for DC |
| CvGate.Release | lv2cvport/CV_Gate16/dsp/gate.hpp:101-104 | only a Gate-type gate closes |
| CvGate.Process | lv2cvport/CV_Gate16/dsp/gate.hpp:106-115 | a pending delay counts down silently. Otherwise an open gate passes the gain and a closed one is silent, and a Trigger gate closes |
| CvGate.RunDelay | lv2cvport/CV_Gate16/dsp/gate.hpp:108-111 | a delay of d gives d silent samples with open and type unchanged |
| CvGate.TriggerThenRun | lv2cvport/CV_Gate16/dsp/gate.hpp:95-114 | after a trigger with delay d, the first d outputs are silent and output d passes the gain |
| CvGate.DCTriggerThenProcess | lv2cvport/CV_Gate16/dsp/gate.hpp:95-99 | a DC gate passes the gain from the sample of its trigger on |
| CvGate.TriggerGateFiresOnce | lv2cvport/CV_Gate16/dsp/gate.hpp:112-114 | a Trigger-type gate gives one sample of gain and then silence |
| CvGate.ClosedStaysSilent | lv2cvport/CV_Gate16/dsp/gate.hpp:106-115 | a closed gate with no delay stays unchanged and silent |
| CvGate.ResetSilent | lv2cvport/CV_Gate16/dsp/gate.hpp:88-115 | after a reset the gate is silent until triggered |
| CvGate.ReleasedGateSilent | lv2cvport/CV_Gate16/dsp/gate.hpp:101-115 | a released Gate-type gate is silent |
| CvGate.RunSplit | lv2cvport/CV_Gate16/dsp/gate.hpp:106-115 | running two blocks is running one after the other |
| CvGate.SetupAsWritten | lv2cvport/CV_Gate16/dsp/gate.hpp:38-45 | `setup` as written: the size is maxSamples+1, or 4 only when that is negative, and the pointers are kept |
| CvGate.SetupAsWrittenEmpty | lv2cvport/CV_Gate16/dsp/gate.hpp:40-41 | a maxSamples of -1 leaves a ring of 0 slots |
| CvGate.SetupAsWrittenShrinks | lv2cvport/CV_Gate16/dsp/gate.hpp:38-45 | shrinking the ring below the write pointer leaves the pointer outside it |
| CvGate.Setup | lv2cvport/CV_Gate16/dsp/gate.hpp:38-47 | corrected `setup`: a valid ring of at least one slot, filled with silence |
| CvGate.ResetDelay | lv2cvport/CV_Gate16/dsp/gate.hpp:47 | the buffer is silenced and the pointers are kept |
| CvGate.SetTimeAsWritten | lv2cvport/CV_Gate16/dsp/gate.hpp:49-53 | `setTime` as written, on any ring (before `setup` too): the read pointer trails the write pointer by the clamped time, modulo `size`; on a valid ring the lag is the clamped time, except that a clamp to `size` gives lag 0 |
| CvGate.SetTimeAsWrittenWraps | lv2cvport/CV_Gate16/dsp/gate.hpp:51-52 | asking for `size` samples or more gives no delay |
| CvGate.SetTime | lv2cvport/CV_Gate16/dsp/gate.hpp:49-53 | corrected `setTime`, on any ring of at least one slot: with the write pointer inside the ring, the read pointer trails it by the time clamped to [0, size-1]; the write pointer and buffer are kept |
| CvGate.DelayProcess | lv2cvport/CV_Gate16/dsp/gate.hpp:55-66 | both pointers advance one slot round the ring, so the lag is unchanged. The input is written, then the old read slot is returned |
| CvGate.DelayRun | lv2cvport/CV_Gate16/dsp/gate.hpp:55-66 | call k returns the input written `lag` calls earlier, or the ring's old contents while it fills. Lag 0 returns the current input |
| CvGate.StepOutput | lv2cvport/CV_Gate16/dsp/gate.hpp:55-66 | one more call returns the delayed input and keeps the description of the ring's contents |
| LoopEnvelope.InitialValid | lv2cvport/CV_PolyLoopEnvelope/dsp/envelope.hpp:229-244 | the initial envelope is terminated and satisfies the invariant |
| LoopEnvelope.ToU32 | lv2cvport/CV_PolyLoopEnvelope/dsp/envelope.hpp:120 | `uint32_t(x)` truncates an in-range x, and is positive exactly when x >= 1 |
| LoopEnvelope.Trigger | lv2cvport/CV_PolyLoopEnvelope/dsp/envelope.hpp:62-67 | section 0 with counter 0, ramping from the current value |
| LoopEnvelope.SetLoop | lv2cvport/CV_PolyLoopEnvelope/dsp/envelope.hpp:70-75 | start > end changes nothing. Otherwise the loop start is set, and the end is kept when it is a section and is release otherwise |
| LoopEnvelope.Set | lv2cvport/CV_PolyLoopEnvelope/dsp/envelope.hpp:79-101 | times are divided by the rate, levels and curves are copied, and state and loop are kept |
| LoopEnvelope.Release | lv2cvport/CV_PolyLoopEnvelope/dsp/envelope.hpp:103-108 | release is entered only when the loop end is a section. The 8-section build always resets the counter and captures the level; the 2-section build changes nothing otherwise |
| LoopEnvelope.Terminate | lv2cvport/CV_PolyLoopEnvelope/dsp/envelope.hpp:110-114 | terminated and silent |
| LoopEnvelope.ProcessSection | lv2cvport/CV_PolyLoopEnvelope/dsp/envelope.hpp:116-135 | when the counter reaches the section length the state goes to the loop start at the loop end, else to the next state, with counter 0; otherwise the counter advances |
| LoopEnvelope.ProcessRelease | lv2cvport/CV_PolyLoopEnvelope/dsp/envelope.hpp:137-155 | at the end of the release the envelope terminates with level 0; otherwise the counter advances |
| LoopEnvelope.Process | lv2cvport/CV_PolyLoopEnvelope/dsp/envelope.hpp:157-208 | a state past release returns 0 and changes nothing. Otherwise the output is the new value |
| LoopEnvelope.StepsLast | lv2cvport/CV_PolyLoopEnvelope/dsp/envelope.hpp:157-208 | k calls are k-1 calls and one more |
| LoopEnvelope.SectionOccupancy | lv2cvport/CV_PolyLoopEnvelope/dsp/envelope.hpp:119-124 | a section of N >= 1 samples entered with counter 0 is occupied for exactly N calls, then left for its successor with counter 0 |
| LoopEnvelope.OneShotReachesRelease | lv2cvport/CV_PolyLoopEnvelope/dsp/envelope.hpp:116-124 | with loop end at release, finishing the last section enters release |
| LoopEnvelope.LoopReturns | lv2cvport/CV_PolyLoopEnvelope2/dsp/envelope.hpp:121-125 | finishing the loop-end section returns to the loop start |
| LoopEnvelope.ReleaseOccupancy | lv2cvport/CV_PolyLoopEnvelope/dsp/envelope.hpp:137-144 | a release of N >= 1 samples lasts N calls and ends terminated with level 0 |
| LoopEnvelope.TerminatedSilent | lv2cvport/CV_PolyLoopEnvelope2/dsp/envelope.hpp:158-179 | a terminated envelope stays unchanged and outputs 0 forever |
| LoopEnvelope.SumTimesSplit | lv2cvport/CV_PolyLoopEnvelope/dsp/envelope.hpp:30-50 | section time sums add over adjacent ranges |
| LoopEnvelope.AttackTime | lv2cvport/CV_PolyLoopEnvelope/dsp/envelope.hpp:30-38 | the sum of decay plus hold over the sections before the loop start |
| LoopEnvelope.LoopTime | lv2cvport/CV_PolyLoopEnvelope/dsp/envelope.hpp:40-50 | the sum over the sections from the loop start to min(loop end, last section), inclusive |
| LoopEnvelope.AttackThenLoop | lv2cvport/CV_PolyLoopEnvelope/dsp/envelope.hpp:30-50 | attack time plus loop time is the time of all sections up to the loop's last section |
| LoopEnvelope.MaxLevel | lv2cvport/CV_PolyLoopEnvelope/dsp/envelope.hpp:54 | one of the levels, and no level is higher |
| LoopEnvelope.MinLevel | lv2cvport/CV_PolyLoopEnvelope/dsp/envelope.hpp:55 | one of the levels, and no level is lower |
| ExpLoopEnvelope.InitialValid | lv2cvport/CV_ExpLoopEnvelope/dsp/envelope.hpp:262-283 | the initial envelope is terminated with tail length 32 and satisfies the invariant |
| ExpLoopEnvelope.Setup | lv2cvport/CV_ExpLoopEnvelope/dsp/envelope.hpp:58-62 | the tail length is `uint32_t(0.01 * sampleRate)`: at least 1 from 100 Hz on, and 0 below |
| ExpLoopEnvelope.Trigger | lv2cvport/CV_ExpLoopEnvelope/dsp/envelope.hpp:70-74 | section 0 with counter 0, with the controller left where it is |
| ExpLoopEnvelope.SetLoop | lv2cvport/CV_ExpLoopEnvelope/dsp/envelope.hpp:78-83 | start > end changes nothing. Otherwise the end is kept up to and including section 7, and is release beyond |
| ExpLoopEnvelope.Set | lv2cvport/CV_ExpLoopEnvelope/dsp/envelope.hpp:87-91 | the period is the reciprocal of the rate, and the release time is divided by it |
| ExpLoopEnvelope.SetTimes | lv2cvport/CV_ExpLoopEnvelope/dsp/envelope.hpp:93-131 | section times are scaled by the period; state and levels are kept |
| ExpLoopEnvelope.SetLevel | lv2cvport/CV_ExpLoopEnvelope/dsp/envelope.hpp:133-151 | levels are replaced; state is kept |
| ExpLoopEnvelope.Release | lv2cvport/CV_ExpLoopEnvelope/dsp/envelope.hpp:153-156 | release is entered only if the loop end is a section, and the counters are left alone |
| ExpLoopEnvelope.Terminate | lv2cvport/CV_ExpLoopEnvelope/dsp/envelope.hpp:158-162 | terminated, with the controller at 0 |
| ExpLoopEnvelope.TailStepAsWritten | lv2cvport/CV_ExpLoopEnvelope/dsp/envelope.hpp:225-233 | from a positive counter: one less, ending when it reaches 0 |
| ExpLoopEnvelope.TailAsWrittenWraps | lv2cvport/CV_ExpLoopEnvelope/dsp/envelope.hpp:221-227 | a tail counter of 0 wraps to 2^32-1 instead of ending |
| ExpLoopEnvelope.TailStep | lv2cvport/CV_ExpLoopEnvelope/dsp/envelope.hpp:225-233 | corrected tail step: it ends exactly when the counter is 0, and agrees with the code for counters >= 1 |
| ExpLoopEnvelope.Process | lv2cvport/CV_ExpLoopEnvelope/dsp/envelope.hpp:179-240 | states past the tail return 0 and change nothing. Sections leave the tail counter alone, and release and tail leave the section counter alone. The tail takes the corrected step (see Findings) |
| ExpLoopEnvelope.TailProcessAsWritten | lv2cvport/CV_ExpLoopEnvelope/dsp/envelope.hpp:225-233 | the tail call as written: the output is not finite exactly when the tail length is 0; from a positive counter it counts down by one and terminates on reaching 0 |
| ExpLoopEnvelope.EmptyTailAsWrittenRunsOn | lv2cvport/CV_ExpLoopEnvelope/dsp/envelope.hpp:221-227 | as written, a tail loaded with length 0 stays in the tail with the counter at 2^32-1 and a non-finite output |
| ExpLoopEnvelope.TailProcessAgrees | lv2cvport/CV_ExpLoopEnvelope/dsp/envelope.hpp:225-233 | for a tail length of at least 1 and a running counter, `Process` makes the source's tail call: same state, counter and output |
| ExpLoopEnvelope.StepsLast | lv2cvport/CV_ExpLoopEnvelope/dsp/envelope.hpp:179-240 | k calls are k-1 calls and one more |
| ExpLoopEnvelope.SectionStep | lv2cvport/CV_ExpLoopEnvelope/dsp/envelope.hpp:164-177 | completing a section goes to the loop start at the loop end, else to the next state, with counter 0 |
| ExpLoopEnvelope.SectionOccupancy | lv2cvport/CV_ExpLoopEnvelope/dsp/envelope.hpp:164-177 | a section of N >= 1 samples is occupied for exactly N calls |
| ExpLoopEnvelope.ReleaseToTail | lv2cvport/CV_ExpLoopEnvelope/dsp/envelope.hpp:214-223 | release enters the tail when the value falls below the threshold, loading the tail counter with the tail length |
| ExpLoopEnvelope.TailOccupancy | lv2cvport/CV_ExpLoopEnvelope/dsp/envelope.hpp:225-234 | a tail of L >= 1 samples counts down for exactly L calls, and the L-th call terminates with output 0 and the controller at 0 |
| ExpLoopEnvelope.EmptyTailEnds | lv2cvport/CV_ExpLoopEnvelope/dsp/envelope.hpp:225-234 | with the corrected step, a tail of length 0 terminates at once, silently |
| ExpLoopEnvelope.TerminatedSilent | lv2cvport/CV_ExpLoopEnvelope/dsp/envelope.hpp:236-237 | a terminated envelope stays unchanged and outputs 0 |
| ExpLoopEnvelope.Times | lv2cvport/CV_ExpLoopEnvelope/dsp/envelope.hpp:30-50 | the attack time sums the sections before the loop start; the loop time sums the loop's sections up to section 7 |
| PolyLoopCore.FindFirst | lv2cvport/CV_PolyLoopEnvelope/dsp/dspcore.cpp:162-165 | `std::find_if` by key, used for the oldest held note with an id and for the first queued event of a frame: the first position with the key, or none exactly when no element has it |
| PolyLoopCore.NoteOn | lv2cvport/CV_PolyLoopEnvelope/dsp/dspcore.cpp:143-158 | exactly one entry with the id is pushed, the rate follows the pitch under key follow, and the envelope retriggers |
| PolyLoopCore.FollowTop | lv2cvport/CV_PolyLoopEnvelope/dsp/dspcore.cpp:169-172 | under key follow with notes held, the rate follows the newest note; otherwise nothing changes |
| PolyLoopCore.RemoveNote | lv2cvport/CV_PolyLoopEnvelope/dsp/dspcore.cpp:160-175 | removes the one entry and keeps the others in order. The rate follows the new top note. The envelope is released only when the stack empties and the gate is closed |
| PolyLoopCore.NoteOff | lv2cvport/CV_PolyLoopEnvelope/dsp/dspcore.cpp:160-175 | an id not held changes nothing; otherwise the oldest entry with the id is removed |
| PolyLoopCore.NoteOnThenOff | lv2cvport/CV_PolyLoopEnvelope/dsp/dspcore.cpp:143-175 | pressing and releasing a new id gives the note stack back as it was |
| PolyLoopCore.Reset | lv2cvport/CV_PolyLoopEnvelope/dsp/dspcore.cpp:43-49 | the note stack is empty and the envelope terminated and silent |
| PolyLoopCore.Gate | lv2cvport/CV_PolyLoopEnvelope/dsp/dspcore.cpp:86-92 | a rising edge opens the gate and triggers; a falling edge closes it and releases only with no note held; no edge changes nothing |
| PolyLoopCore.GateTriggersOnce | lv2cvport/CV_PolyLoopEnvelope/dsp/dspcore.cpp:86-89 | a gate held high triggers on its first frame only |
| PolyLoopCore.GateHeld | lv2cvport/CV_PolyLoopEnvelope/dsp/dspcore.cpp:86-92 | an open gate whose input stays high changes nothing |
| PolyLoopCore.PushMidiNote | lv2cvport/CV_PolyLoopEnvelope/dsp/dspcore.hpp:108-124 | one event with exactly the given fields is appended and the rest are kept |
| PolyLoopCore.ProcessMidiNoteCorrect | lv2cvport/CV_PolyLoopEnvelope/dsp/dspcore.hpp:126-139 | the frame's events are dispatched in queue order, and the queue keeps exactly the other frames' events in order |
| PolyLoopCore.ProcessMidiNoteDrains | lv2cvport/CV_PolyLoopEnvelope/dsp/dspcore.hpp:126-139 | no event of the frame remains, and the queue shrinks by exactly the frame's events |
| PolyLoopCore.OfFrameCount | lv2cvport/CV_PolyLoopEnvelope/dsp/dspcore.hpp:126-139 | every event is either of the frame or not |
| PolyLoopCore.PushedDispatchedLast | lv2cvport/CV_PolyLoopEnvelope/dsp/dspcore.hpp:108-139 | an event pushed for a frame is the last one that frame dispatches |
| PolyLoopCore.Frame | lv2cvport/CV_PolyLoopEnvelope/dsp/dspcore.cpp:83-92 | a frame dispatches its MIDI events and then applies the gate input |

## Left out

- File and host I/O: opening files, `glob`, `mkdir`, `json.load`/`json.dump`, the `class_id.json` lookup and `sys.argv`. The model works on byte sequences, line lists and parsed values. The class-id table is a `map`, and a directory listing is a sequence of files.
- Python `re` in `extractparameter.py`. The enum body arrives as its lines, and each construction statement as its five captures.
- IEEE 754 doubles: an 8-byte field is an opaque byte string. The conversion of an integer to a double for a "d" field (`toDouble`), the formatting of floats in generated code (`formatFloat`), and UTF-8 decoding (`decodeUtf8`) are parameters.
- Native byte order is taken to be little-endian for the component fields.
- The files written before an error stops a script are not modelled; an error is the whole result.
- Generated C++ files are sequences of lines, not one string.
- DSP numerics:
  - The ramp curve `somepow` is the parameter `pow`, and the `PController` glide is the parameter `smooth`.
  - `midiNoteToRatio` is the parameter `toRatio`.
  - The gain smoother of `Gate` is the gain sample passed to `Process`.
  - The rate smoother appears only as its target `rateTarget`.
  - Output gain, the per-sample `set` calls in `DSPCore::process`, and float rounding are left out.
- Float-to-`uint32_t` conversions truncate. Out-of-range conversions, undefined in C++, saturate in `ToU32`.
- `NoteInfo.velocity` is left out: `noteOn` never sets it.
- LoopEnvelope.Set: requires `rate > 0`, which the source's comment demands of callers; a zero rate (a float division by zero there) is not modelled.
- LoopEnvelope.Process: the output value is stated through the ramp functions, not as a closed form of time.
- ExpLoopEnvelope.Process: release and section outputs are whatever the `smooth` parameter yields; only the state and counter movement is stated.
- ExpLoopEnvelope.Process: the tail takes the corrected step, so a tail loaded with length 0 ends at once with output 0. The source wraps its counter and outputs a division by zero for about 2^32 samples; that call is TailProcessAsWritten, which states the output only as not finite.
- Text: `int()`, `float()` and `str.strip` are modelled for ASCII text only. Python also accepts non-ASCII decimal digits (`int("١٢")` is 12) and strips non-ASCII white space; the headers the scripts read are ASCII.
- Text.ParseIntRejects: a non-ASCII digit counts as a rejected character, which Python's `int()` would accept.
- VstPresetRead.ReadVstPreset: the failure cases stated are the header's and the chunk-list seek's, and a successful read is described completely; the full list of conditions under which a read succeeds is not stated as one equivalence.
- Python's `read(n)` for a size below 2^63 but beyond available memory raises `MemoryError`, and a file system may refuse a seek below 2^63; neither is modelled.
- The per-section `info["<id>_offset"]` keys of `chunk_info` repeat the entries and are not modelled.
- The MIDI queue's `std::vector` storage and iterators are not modelled, only the resulting queue and the dispatch order.

## Findings

| source | as written | input that shows it | evidently intended | confidence | as-written member | corrected member |
|---|---|---|---|---|---|---|
| lv2cvport/CV_Gate16/dsp/gate.hpp:40-41 | the guard `size < 0` lets a size of 0 through, and `process` then indexes an empty buffer | `setup` with `int(sampleRate * maxTime) == -1` | a ring of at least one slot | not executed; medium (the class is marked unused) | CvGate.SetupAsWrittenEmpty | CvGate.Setup |
| lv2cvport/CV_Gate16/dsp/gate.hpp:38-45 | `setup` keeps `wptr` and `rptr`, so shrinking the ring leaves them outside it | ring of 10 with `wptr` 7, then `setup` to size 3 | pointers rewound into the new ring | not executed; medium (the class is marked unused) | CvGate.SetupAsWrittenShrinks | CvGate.Setup |
| lv2cvport/CV_Gate16/dsp/gate.hpp:51-52 | the clamp's upper bound is `size`, and a lag of `size` wraps to 0 | `setTime` for `size` or more samples | the longest lag the ring holds, `size - 1` | not executed; medium (the class is marked unused) | CvGate.SetTimeAsWrittenWraps | CvGate.SetTime |
| lv2cvport/CV_ExpLoopEnvelope/dsp/envelope.hpp:225-233 | with `tailLength` 0 (line 61 sets it so for a sample rate below 100 Hz) the tail's `--tailCounter` wraps to 2^32-1, so the tail lasts about 2^32 samples; the output divides by a length of 0 | `setup(50)`, then a release that falls below the threshold | the tail ends at once | not executed; low (such sample rates are not used in practice) | ExpLoopEnvelope.EmptyTailAsWrittenRunsOn | ExpLoopEnvelope.TailStep |
