/**
 * jsontocpp.py: turn a plugin's `*.preset.json` into C++ source.
 *
 * Two files come out: a `loadProgram` method whose `switch` has one case
 * per preset, and a `Preset` enum with a `programName` array of display
 * names.  "Default" comes first and the other presets follow in name order,
 * so that enum ordinal, switch case and display name agree.
 *
 * Both files are modelled as their lines; a file's text is its lines each
 * followed by a newline.  `formatFloat` stands for Python's `str` of a
 * float, which the model does not spell out.
 */
module PresetCode {
  import opened Wrappers
  import opened Text
  import opened OrderedDict
  import opened Sorting
  import opened ParameterSchema
  import opened PresetFormat

  datatype CodeError =
    | NoDefault                    // `next(...)` finds no preset named "Default"
    | UnknownParameter(name: string) // `parameter_type[name]` raises KeyError

  const DefaultName: string := "Default"

  // ---------------------------------------------------------------------
  // Preset order

  /** The position of the first preset called `name`. */
  function FirstNamed(presets: seq<Preset>, name: string): (r: Option<nat>)
    ensures r.Some? ==> r.value < |presets| && presets[r.value].name == name
    ensures r.Some? ==> forall j :: 0 <= j < r.value ==> presets[j].name != name
    ensures r.None? <==> forall j :: 0 <= j < |presets| ==> presets[j].name != name
  {
    if |presets| == 0 then None
    else if presets[0].name == name then Some(0)
    else match FirstNamed(presets[1..], name)
      case None => None
      case Some(i) => Some(i + 1)
  }

  function NameKey(p: Preset): seq<string> {
    [p.name]
  }

  /** `presets` without the one at position `k`. */
  function Without(presets: seq<Preset>, k: nat): seq<Preset>
    requires k < |presets|
  {
    presets[..k] + presets[k + 1..]
  }

  /** Pop the first "Default", sort the rest by name, put "Default" in front. */
  function OrderPresets(presets: seq<Preset>): (r: Result<seq<Preset>, CodeError>)
    ensures r.Success? ==> |r.value| == |presets|
  {
    match FirstNamed(presets, DefaultName)
    case None => Failure(NoDefault)
    case Some(k) => Success([presets[k]] + SortBy(Without(presets, k), NameKey))
  }

  /**
   * The order of the generated presets: it fails exactly when no preset is
   * called "Default"; otherwise the first "Default" leads, the rest follow
   * in ascending name order, presets of equal name keep their input order,
   * and nothing is lost or added.
   */
  lemma OrderPresetsCorrect(presets: seq<Preset>)
    ensures OrderPresets(presets).Failure? <==> forall j :: 0 <= j < |presets| ==> presets[j].name != DefaultName
    ensures OrderPresets(presets).Failure? ==> OrderPresets(presets).error == NoDefault
    ensures OrderPresets(presets).Success? ==>
      var r := OrderPresets(presets).value;
      var k := FirstNamed(presets, DefaultName).value;
      && r[0] == presets[k]
      && (forall i, j :: 1 <= i <= j < |r| ==> StrLessEq(r[i].name, r[j].name))
      && multiset(r) == multiset(presets)
      && forall n :: WithKey(r[1..], NameKey, [n]) == WithKey(Without(presets, k), NameKey, [n])
  {
    if FirstNamed(presets, DefaultName).Some? {
      var k := FirstNamed(presets, DefaultName).value;
      var rest := Without(presets, k);
      var r := OrderPresets(presets).value;
      assert r == [presets[k]] + SortBy(rest, NameKey);
      assert r[1..] == SortBy(rest, NameKey);
      SortByCorrect(rest, NameKey);
      SortedNames(r[1..]);
      WithoutMultiset(presets, k);
    }
  }

  /** Sorted by `NameKey` means names ascend pairwise. */
  lemma SortedNames(s: seq<Preset>)
    requires SortedBy(s, NameKey)
    ensures forall i, j :: 0 <= i <= j < |s| ==> StrLessEq(s[i].name, s[j].name)
  {
    forall i, j | 0 <= i <= j < |s| ensures StrLessEq(s[i].name, s[j].name) {
      SortedByPairwise(s, NameKey, i, j);
      PartsLessOfNames(s[i].name, s[j].name);
    }
  }

  lemma WithoutMultiset(presets: seq<Preset>, k: nat)
    requires k < |presets|
    ensures multiset{presets[k]} + multiset(Without(presets, k)) == multiset(presets)
  {
    assert presets == presets[..k] + [presets[k]] + presets[k + 1..];
  }

  // ---------------------------------------------------------------------
  // The loadProgram switch

  /** `f"{value}"` of a JSON number. */
  function ValueText(v: Value, formatFloat: Float64 -> string): string {
    match v
    case VInt(n) => IntToDecimal(n)
    case VDouble(b) => formatFloat(b)
  }

  /** "I" parameters are set from an integer, all others from a normalized value. */
  function SetterMethod(t: TypeCode): string {
    if t == IntType then "setFromInt" else "setFromNormalized"
  }

  function SetterLine(index: string, setter: string, text: string): string {
    "      value[ID::" + index + "]->" + setter + "(" + text + ");"
  }

  /** The value a parameter is emitted with: 0 for "bypass", its stored value otherwise. */
  function Emitted(name: string, v: Value): Value {
    if name == "bypass" then VInt(0) else v
  }

  /**
   * `line` sets the parameter `name` to `v`: it addresses the parameter's ID,
   * calls `setFromInt` exactly for "I" parameters and `setFromNormalized`
   * for the rest, and passes 0 for "bypass" and the stored value otherwise.
   */
  ghost predicate Assigns(schema: Schema, name: string, v: Value, formatFloat: Float64 -> string, line: string) {
    && Get(schema, name).Some?
    && var def := Get(schema, name).value;
    && exists setter, text ::
      && line == SetterLine(def.index, setter, text)
      && (setter == "setFromInt" <==> def.typeCode == IntType)
      && (setter == "setFromInt" || setter == "setFromNormalized")
      && text == (if name == "bypass" then "0" else ValueText(v, formatFloat))
  }

  /** One parameter's assignment, looked up in the schema by name. */
  function ParameterLine(schema: Schema, name: string, v: Value, formatFloat: Float64 -> string)
    : (r: Result<string, CodeError>)
    ensures r.Failure? <==> Get(schema, name).None?
    ensures r.Failure? ==> r.error == UnknownParameter(name)
    ensures r.Success? ==> Assigns(schema, name, v, formatFloat, r.value)
  {
    match Get(schema, name)
    case None => Failure(UnknownParameter(name))
    case Some(def) =>
      Success(SetterLine(def.index, SetterMethod(def.typeCode), ValueText(Emitted(name, v), formatFloat)))
  }

  /** The assignments of a preset's parameters, in the preset's order. */
  function ParameterLines(schema: Schema, pairs: seq<(string, Value)>, formatFloat: Float64 -> string)
    : (r: Result<seq<string>, CodeError>)
    ensures r.Success? <==> forall i :: 0 <= i < |pairs| ==> pairs[i].0 in Keys(schema)
    ensures r.Success? ==> |r.value| == |pairs|
    ensures r.Success? ==> forall i :: 0 <= i < |pairs| ==> Assigns(schema, pairs[i].0, pairs[i].1, formatFloat, r.value[i])
  {
    if |pairs| == 0 then Success([])
    else
      var line :- ParameterLine(schema, pairs[0].0, pairs[0].1, formatFloat);
      var rest :- ParameterLines(schema, pairs[1..], formatFloat);
      Success([line] + rest)
  }

  function CaseLine(caseName: string): string {
    "    case " + caseName + ": {"
  }

  const BreakLine: string := "    } break;"

  /** A blank line, the case label, the assignments, and the closing `break`. */
  function CaseBlock(p: Preset, schema: Schema, prefix: string, formatFloat: Float64 -> string)
    : Result<seq<string>, CodeError>
  {
    var body :- ParameterLines(schema, p.parameter.items, formatFloat);
    Success(["", CaseLine(prefix + p.name)] + body + [BreakLine])
  }

  function CaseBlocks(presets: seq<Preset>, schema: Schema, prefix: string, formatFloat: Float64 -> string)
    : Result<seq<string>, CodeError>
  {
    if |presets| == 0 then Success([])
    else
      var block :- CaseBlock(presets[0], schema, prefix, formatFloat);
      var rest :- CaseBlocks(presets[1..], schema, prefix, formatFloat);
      Success(block + rest)
  }

  /** Everything up to the `default:` case, which resets every parameter. */
  const SwitchHead: seq<string> := [
    "#include \"parameter.hpp\"",
    "",
    "// Generated from preset dump.",
    "#ifndef TEST_BUILD",
    "",
    "void GlobalParameter::loadProgram(uint32_t index)",
    "{",
    "  using ID = ParameterID::ID;",
    "",
    "  switch (index) {",
    "    default:",
    "      resetParameter();",
    "      break;"]

  const SwitchTail: seq<string> := ["  }", "}", "", "#endif"]

  function LoadProgramLines(presets: seq<Preset>, schema: Schema, prefix: string, formatFloat: Float64 -> string)
    : Result<seq<string>, CodeError>
  {
    var blocks :- CaseBlocks(presets, schema, prefix, formatFloat);
    Success(SwitchHead + blocks + SwitchTail)
  }

  /** A line that opens a `case`; `SetterLine`s and the fixed lines never do. */
  predicate IsCaseLine(line: string) {
    |line| >= 12 && line[..9] == "    case " && line[|line| - 3..] == ": {"
  }

  /**
   * Reading the loadProgram file back: the label of every `case`, in file
   * order.
   */
  function CaseLabels(lines: seq<string>): (r: seq<string>)
    ensures |r| <= |lines|
  {
    if |lines| == 0 then []
    else if IsCaseLine(lines[0]) then [lines[0][9..|lines[0]| - 3]] + CaseLabels(lines[1..])
    else CaseLabels(lines[1..])
  }

  lemma {:induction false} CaseLabelsAppend(a: seq<string>, b: seq<string>)
    ensures CaseLabels(a + b) == CaseLabels(a) + CaseLabels(b)
  {
    if |a| == 0 {
      assert a + b == b;
    } else {
      assert (a + b)[0] == a[0];
      assert (a + b)[1..] == a[1..] + b;
      CaseLabelsAppend(a[1..], b);
    }
  }

  lemma {:induction false} NoCaseLabels(lines: seq<string>)
    requires forall i :: 0 <= i < |lines| ==> !IsCaseLine(lines[i])
    ensures CaseLabels(lines) == []
  {
    if |lines| > 0 {
      NoCaseLabels(lines[1..]);
    }
  }

  lemma CaseLineLabel(caseName: string)
    ensures IsCaseLine(CaseLine(caseName))
    ensures CaseLabels([CaseLine(caseName)]) == [caseName]
  {
    var l := CaseLine(caseName);
    assert l[..9] == "    case ";
    assert l[|l| - 3..] == ": {";
    assert l[9..|l| - 3] == caseName;
  }

  /** Every case line has a 'c' in column 4, where the other lines have something else. */
  lemma CaseLineColumn(line: string)
    requires IsCaseLine(line)
    ensures line[4] == 'c'
  {
    assert line[..9][4] == 'c';
  }

  lemma SetterLineNotCase(index: string, setter: string, text: string)
    ensures !IsCaseLine(SetterLine(index, setter, text))
  {
    var l := SetterLine(index, setter, text);
    assert l[4] == ' ';
    if IsCaseLine(l) {
      CaseLineColumn(l);
    }
  }

  lemma {:induction false} NoCaseLabelsByColumn(lines: seq<string>)
    requires forall i :: 0 <= i < |lines| ==> |lines[i]| < 12 || lines[i][4] != 'c'
    ensures CaseLabels(lines) == []
  {
    forall i | 0 <= i < |lines| ensures !IsCaseLine(lines[i]) {
      if IsCaseLine(lines[i]) {
        CaseLineColumn(lines[i]);
      }
    }
    NoCaseLabels(lines);
  }

  lemma FixedLinesNotCase()
    ensures CaseLabels([""]) == [] && CaseLabels([BreakLine]) == []
  {
    NoCaseLabelsByColumn([""]);
    NoCaseLabelsByColumn([BreakLine]);
  }

  lemma {:induction false} AssignmentsNotCase(schema: Schema, pairs: seq<(string, Value)>,
                                              formatFloat: Float64 -> string, lines: seq<string>)
    requires ParameterLines(schema, pairs, formatFloat) == Success(lines)
    ensures CaseLabels(lines) == []
  {
    forall i | 0 <= i < |lines| ensures !IsCaseLine(lines[i]) {
      var def := Get(schema, pairs[i].0).value;
      var setter, text :| lines[i] == SetterLine(def.index, setter, text);
      SetterLineNotCase(def.index, setter, text);
    }
    NoCaseLabels(lines);
  }

  /** A preset's block names exactly one case: the prefixed preset name. */
  lemma CaseBlockLabel(p: Preset, schema: Schema, prefix: string, formatFloat: Float64 -> string)
    requires CaseBlock(p, schema, prefix, formatFloat).Success?
    ensures CaseLabels(CaseBlock(p, schema, prefix, formatFloat).value) == [prefix + p.name]
  {
    var body := ParameterLines(schema, p.parameter.items, formatFloat).value;
    AssignmentsNotCase(schema, p.parameter.items, formatFloat, body);
    FixedLinesNotCase();
    CaseLineLabel(prefix + p.name);
    CaseLabelsAppend([""], [CaseLine(prefix + p.name)]);
    CaseLabelsAppend(["", CaseLine(prefix + p.name)], body);
    CaseLabelsAppend(["", CaseLine(prefix + p.name)] + body, [BreakLine]);
  }

  function Prefixed(names: seq<string>, prefix: string): (r: seq<string>)
    ensures |r| == |names| && forall k :: 0 <= k < |names| ==> r[k] == prefix + names[k]
  {
    seq(|names|, k requires 0 <= k < |names| => prefix + names[k])
  }

  /** The blocks fail exactly when some preset has a parameter the schema lacks. */
  lemma {:induction false} CaseBlocksSucceed(presets: seq<Preset>, schema: Schema, prefix: string,
                                             formatFloat: Float64 -> string)
    ensures CaseBlocks(presets, schema, prefix, formatFloat).Success?
        <==> forall k :: 0 <= k < |presets| ==> Covered(schema, presets[k])
  {
    if |presets| > 0 {
      CaseBlocksSucceed(presets[1..], schema, prefix, formatFloat);
      assert CaseBlock(presets[0], schema, prefix, formatFloat).Success? <==> Covered(schema, presets[0]);
    }
  }

  /** The blocks hold one case per preset, labelled with the prefixed names in preset order. */
  lemma {:induction false} CaseBlocksLabels(presets: seq<Preset>, schema: Schema, prefix: string,
                                            formatFloat: Float64 -> string)
    requires CaseBlocks(presets, schema, prefix, formatFloat).Success?
    ensures CaseLabels(CaseBlocks(presets, schema, prefix, formatFloat).value) == Prefixed(Names(presets), prefix)
  {
    if |presets| > 0 {
      var p := presets[0];
      var block := CaseBlock(p, schema, prefix, formatFloat).value;
      var rest := CaseBlocks(presets[1..], schema, prefix, formatFloat).value;
      CaseBlocksLabels(presets[1..], schema, prefix, formatFloat);
      assert CaseLabels(block + rest) == [prefix + p.name] + CaseLabels(rest) by {
        CaseBlockLabel(p, schema, prefix, formatFloat);
        CaseLabelsAppend(block, rest);
      }
      assert Prefixed(Names(presets), prefix) == [prefix + p.name] + Prefixed(Names(presets[1..]), prefix);
    }
  }

  /** Every parameter name of `p` is in the schema. */
  predicate Covered(schema: Schema, p: Preset) {
    forall i :: 0 <= i < |p.parameter.items| ==> p.parameter.items[i].0 in Keys(schema)
  }

  /**
   * Reading the loadProgram file back: the labels of its cases, provided it
   * opens with the fixed text up to the `default:` case and ends with the
   * closing of the switch.
   */
  function ReadSwitch(lines: seq<string>): (r: Option<seq<string>>)
    ensures r.Some? ==> |lines| >= |SwitchHead| + |SwitchTail| && lines[..|SwitchHead|] == SwitchHead
  {
    if |lines| >= |SwitchHead| + |SwitchTail|
       && lines[..|SwitchHead|] == SwitchHead && lines[|lines| - |SwitchTail|..] == SwitchTail
    then Some(CaseLabels(lines[|SwitchHead|..|lines| - |SwitchTail|]))
    else None
  }

  /**
   * The loadProgram file fails exactly when some preset has a parameter the
   * schema lacks; otherwise it opens with the `default:` case that resets
   * every parameter and then names one case per preset, in preset order.
   */
  lemma LoadProgramCorrect(presets: seq<Preset>, schema: Schema, prefix: string, formatFloat: Float64 -> string)
    ensures LoadProgramLines(presets, schema, prefix, formatFloat).Success?
        <==> forall k :: 0 <= k < |presets| ==> Covered(schema, presets[k])
    ensures LoadProgramLines(presets, schema, prefix, formatFloat).Success? ==>
      ReadSwitch(LoadProgramLines(presets, schema, prefix, formatFloat).value) == Some(Prefixed(Names(presets), prefix))
  {
    CaseBlocksSucceed(presets, schema, prefix, formatFloat);
    if CaseBlocks(presets, schema, prefix, formatFloat).Success? {
      CaseBlocksLabels(presets, schema, prefix, formatFloat);
      var blocks := CaseBlocks(presets, schema, prefix, formatFloat).value;
      var lines := SwitchHead + blocks + SwitchTail;
      assert lines[..|SwitchHead|] == SwitchHead;
      assert lines[|lines| - |SwitchTail|..] == SwitchTail;
      assert lines[|SwitchHead|..|lines| - |SwitchTail|] == blocks;
    }
  }

  // ---------------------------------------------------------------------
  // The Preset enum and the programName array

  function EnumEntries(names: seq<string>, prefix: string): (r: seq<string>)
    ensures |r| == |names|
  {
    seq(|names|, k requires 0 <= k < |names| => "  " + prefix + names[k] + ",")
  }

  function NameEntries(names: seq<string>): (r: seq<string>)
    ensures |r| == |names|
  {
    seq(|names|, k requires 0 <= k < |names| => "  \"" + names[k] + "\",")
  }

  const EnumHead: string := "enum Preset {"
  const ArrayFront: string := "std::array<const char*, "
  const ArrayBack: string := "> programName{"
  const Closing: string := "};"

  function ArrayHeader(n: nat): string {
    ArrayFront + NatToDecimal(n) + ArrayBack
  }

  function EnumLines(names: seq<string>, prefix: string): seq<string> {
    [EnumHead] + EnumEntries(names, prefix)
    + ["", "  Preset_ENUM_LENGTH,", Closing, "", ArrayHeader(|names|)]
    + NameEntries(names) + [Closing]
  }

  function Names(presets: seq<Preset>): (r: seq<string>)
    ensures |r| == |presets| && forall k :: 0 <= k < |presets| ==> r[k] == presets[k].name
  {
    seq(|presets|, k requires 0 <= k < |presets| => presets[k].name)
  }

  /** What the enum file declares: the enum's identifiers, the array's size and its names. */
  datatype EnumFile = EnumFile(identifiers: seq<string>, size: int, names: seq<string>)

  const EnumMiddle: seq<string> := ["", "  Preset_ENUM_LENGTH,", Closing, ""]

  /** The lines before the first one equal to `stop`. */
  function TakeUntil(lines: seq<string>, stop: string): (r: seq<string>)
    ensures |r| <= |lines| && r == lines[..|r|]
    ensures forall i :: 0 <= i < |r| ==> r[i] != stop
    ensures |r| < |lines| ==> lines[|r|] == stop
  {
    if |lines| == 0 || lines[0] == stop then [] else [lines[0]] + TakeUntil(lines[1..], stop)
  }

  /** `line` without its first `front` and last `back` characters. */
  function Unwrap(line: string, front: nat, back: nat): string {
    if |line| >= front + back then line[front..|line| - back] else line
  }

  function UnwrapAll(lines: seq<string>, front: nat, back: nat): (r: seq<string>)
    ensures |r| == |lines| && forall k :: 0 <= k < |lines| ==> r[k] == Unwrap(lines[k], front, back)
  {
    seq(|lines|, k requires 0 <= k < |lines| => Unwrap(lines[k], front, back))
  }

  /**
   * Reading the enum file back: the enum entries up to the blank line, the
   * fixed `Preset_ENUM_LENGTH` tail, the array header with its size, and the
   * quoted names up to the closing brace.
   */
  function ReadEnum(lines: seq<string>): (r: Option<EnumFile>)
    ensures r.Some? ==> |lines| > 0 && lines[0] == EnumHead
  {
    if |lines| == 0 || lines[0] != EnumHead then None
    else
      var ids := TakeUntil(lines[1..], "");
      match ReadArray(lines[1 + |ids|..])
      case None => None
      case Some((size, names)) => Some(EnumFile(UnwrapAll(ids, 2, 1), size, names))
  }

  /** The part of the enum file after the enum entries: the array's size and names. */
  function ReadArray(rest: seq<string>): Option<(int, seq<string>)> {
    if |rest| <= |EnumMiddle| || rest[..|EnumMiddle|] != EnumMiddle then None
    else
      var header := rest[|EnumMiddle|];
      var names := TakeUntil(rest[|EnumMiddle| + 1..], Closing);
      if |header| < |ArrayFront| + |ArrayBack|
         || header[..|ArrayFront|] != ArrayFront || header[|header| - |ArrayBack|..] != ArrayBack
         || |names| == |rest| - |EnumMiddle| - 1
      then None
      else match ParseInt(Unwrap(header, |ArrayFront|, |ArrayBack|))
        case None => None
        case Some(size) => Some((size, UnwrapAll(names, 3, 2)))
  }

  lemma {:induction false} TakeUntilStops(xs: seq<string>, stop: string, rest: seq<string>)
    requires forall i :: 0 <= i < |xs| ==> xs[i] != stop
    ensures TakeUntil(xs + [stop] + rest, stop) == xs
  {
    if |xs| == 0 {
      assert (xs + [stop] + rest)[0] == stop;
    } else {
      assert (xs + [stop] + rest)[0] == xs[0];
      assert (xs + [stop] + rest)[1..] == xs[1..] + [stop] + rest;
      TakeUntilStops(xs[1..], stop, rest);
    }
  }

  lemma EnumEntriesRead(names: seq<string>, prefix: string)
    ensures forall i :: 0 <= i < |names| ==> EnumEntries(names, prefix)[i] != ""
    ensures UnwrapAll(EnumEntries(names, prefix), 2, 1) == Prefixed(names, prefix)
  {
    var e := EnumEntries(names, prefix);
    forall i | 0 <= i < |names| ensures e[i] != "" && Unwrap(e[i], 2, 1) == prefix + names[i] {
      assert |e[i]| == 3 + |prefix + names[i]|;
      assert e[i][2..|e[i]| - 1] == prefix + names[i];
    }
  }

  lemma NameEntriesRead(names: seq<string>)
    ensures forall i :: 0 <= i < |names| ==> NameEntries(names)[i] != Closing
    ensures UnwrapAll(NameEntries(names), 3, 2) == names
  {
    var e := NameEntries(names);
    forall i | 0 <= i < |names| ensures e[i] != Closing && Unwrap(e[i], 3, 2) == names[i] {
      assert |e[i]| == 5 + |names[i]|;
      assert e[i][3..|e[i]| - 2] == names[i];
    }
  }

  lemma ArrayHeaderRead(n: nat)
    ensures |ArrayHeader(n)| >= |ArrayFront| + |ArrayBack|
    ensures ArrayHeader(n)[..|ArrayFront|] == ArrayFront
    ensures ArrayHeader(n)[|ArrayHeader(n)| - |ArrayBack|..] == ArrayBack
    ensures ParseInt(Unwrap(ArrayHeader(n), |ArrayFront|, |ArrayBack|)) == Some(n)
  {
    var h := ArrayHeader(n);
    assert h[|ArrayFront|..|h| - |ArrayBack|] == NatToDecimal(n);
    ParseIntOfNat(n);
  }

  /**
   * The enum file reads back as the prefixed names as enum identifiers, an
   * array sized to the number of names, and the names themselves, in the
   * same order.
   */
  lemma EnumFileReadBack(names: seq<string>, prefix: string)
    ensures ReadEnum(EnumLines(names, prefix)) == Some(EnumFile(Prefixed(names, prefix), |names|, names))
  {
    var entries := EnumEntries(names, prefix);
    var tail := EnumMiddle + [ArrayHeader(|names|)] + NameEntries(names) + [Closing];
    var lines := EnumLines(names, prefix);
    assert lines == [EnumHead] + entries + tail;
    assert lines[1..] == entries + [""] + tail[1..];
    EnumEntriesRead(names, prefix);
    TakeUntilStops(entries, "", tail[1..]);
    assert lines[1 + |entries|..] == tail;
    ArrayTailRead(names);
  }

  lemma ArrayTailRead(names: seq<string>)
    ensures ReadArray(EnumMiddle + [ArrayHeader(|names|)] + NameEntries(names) + [Closing]) == Some((|names|, names))
  {
    var quoted := NameEntries(names);
    var tail := EnumMiddle + [ArrayHeader(|names|)] + quoted + [Closing];
    assert tail[..|EnumMiddle|] == EnumMiddle;
    assert tail[|EnumMiddle|] == ArrayHeader(|names|);
    assert tail[|EnumMiddle| + 1..] == quoted + [Closing] + [];
    NameEntriesRead(names);
    TakeUntilStops(quoted, Closing, []);
    ArrayHeaderRead(|names|);
  }

  /** A generated C++ file: its name and its lines, each written followed by a newline. */
  datatype CppFile = CppFile(name: string, lines: seq<string>)

  /**
   * `json_to_cpp`: the loadProgram file and the enum file, named after the
   * part of the preset file's name before its first dot, or the error that
   * stops the script before either is written.
   */
  function JsonToCpp(presetFileName: string, presets: seq<Preset>, schema: Schema, prefix: string,
                     formatFloat: Float64 -> string): (r: Result<(CppFile, CppFile), CodeError>)
    ensures r.Success? ==> r.value.0.name == BeforeFirstDot(presetFileName) + "_preset_code.cpp"
    ensures r.Success? ==> r.value.1.name == BeforeFirstDot(presetFileName) + "_preset_enum.cpp"
  {
    var ordered :- OrderPresets(presets);
    var load :- LoadProgramLines(ordered, schema, prefix, formatFloat);
    var plugin := BeforeFirstDot(presetFileName);
    Success((CppFile(plugin + "_preset_code.cpp", load),
             CppFile(plugin + "_preset_enum.cpp", EnumLines(Names(ordered), prefix))))
  }

  /** A preset's position in `ordered` agrees with a preset in `presets` and back. */
  lemma {:induction false} CoveredPermuted(schema: Schema, ordered: seq<Preset>, presets: seq<Preset>)
    requires multiset(ordered) == multiset(presets)
    ensures (forall k :: 0 <= k < |ordered| ==> Covered(schema, ordered[k]))
        <==> (forall k :: 0 <= k < |presets| ==> Covered(schema, presets[k]))
  {
    if forall k :: 0 <= k < |ordered| ==> Covered(schema, ordered[k]) {
      forall k | 0 <= k < |presets| ensures Covered(schema, presets[k]) {
        assert presets[k] in multiset(ordered);
      }
    }
    if forall k :: 0 <= k < |presets| ==> Covered(schema, presets[k]) {
      forall k | 0 <= k < |ordered| ensures Covered(schema, ordered[k]) {
        assert ordered[k] in multiset(presets);
      }
    }
  }

  /**
   * The generator as a whole: it fails exactly when no preset is called
   * "Default" or some preset sets a parameter the schema lacks.  Otherwise
   * the switch's cases, the enum's identifiers and the name array agree
   * position by position, so enum ordinal k selects case k and names
   * display name k; the array is sized to the number of presets, "Default"
   * is at ordinal 0 and the other names ascend.
   */
  lemma JsonToCppCorrect(presetFileName: string, presets: seq<Preset>, schema: Schema, prefix: string,
                         formatFloat: Float64 -> string)
    ensures JsonToCpp(presetFileName, presets, schema, prefix, formatFloat).Success?
        <==> (exists j :: 0 <= j < |presets| && presets[j].name == DefaultName)
             && forall k :: 0 <= k < |presets| ==> Covered(schema, presets[k])
    ensures JsonToCpp(presetFileName, presets, schema, prefix, formatFloat).Success? ==>
      var files := JsonToCpp(presetFileName, presets, schema, prefix, formatFloat).value;
      && ReadSwitch(files.0.lines).Some?
      && ReadEnum(files.1.lines).Some?
      && var cases := ReadSwitch(files.0.lines).value;
      && var e := ReadEnum(files.1.lines).value;
      && |cases| == |e.identifiers| == |e.names| == e.size == |presets|
      && cases == e.identifiers
      && (forall k :: 0 <= k < |presets| ==> e.identifiers[k] == prefix + e.names[k])
      && e.names[0] == DefaultName
      && (forall i, j :: 1 <= i <= j < |presets| ==> StrLessEq(e.names[i], e.names[j]))
  {
    OrderPresetsCorrect(presets);
    if OrderPresets(presets).Success? {
      var ordered := OrderPresets(presets).value;
      CoveredPermuted(schema, ordered, presets);
      LoadProgramCorrect(ordered, schema, prefix, formatFloat);
      EnumFileReadBack(Names(ordered), prefix);
    }
  }
}
