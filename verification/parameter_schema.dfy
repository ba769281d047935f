/**
 * Schema extraction from a plugin's `parameter.hpp` (extractparameter.py).
 *
 * Two passes, as in the script: the body of `enum ID` in `namespace
 * ParameterID` is numbered and each entry gets a range (the distance to the
 * next entry), then every `value[ID::x] = std::make_unique<T>(default, scale,
 * name, flags);` statement becomes one schema entry, or `range` entries when
 * its target is an array element `ID::x0 + idx`.
 *
 * Locating the enum body and the construction statements is done with
 * regular expressions in the script; here their results are the inputs: the
 * enum body as a list of lines and the statements as `Construction` records.
 */
module ParameterSchema {
  import opened Wrappers
  import opened Text
  import opened OrderedDict

  /** The `struct` format characters the schema uses: "I" (4-byte unsigned) and "d" (8-byte double). */
  datatype TypeCode = IntType | DoubleType

  function FormatChar(t: TypeCode): string {
    match t
    case IntType => "I"
    case DoubleType => "d"
  }

  /** `struct.calcsize` of the format. */
  function ByteSize(t: TypeCode): (n: nat)
    ensures n == 4 || n == 8
  {
    match t
    case IntType => 4
    case DoubleType => 8
  }

  /** A default as `convert_string` returns it; a float is kept as its literal text. */
  datatype DefaultValue = DInt(i: int) | DFloat(literal: string) | DBool(b: bool) | DText(text: string)

  /** One entry of the `*.type.json` schema. */
  datatype ParamDef = ParamDef(
    typeCode: TypeCode,
    index: string,
    default: DefaultValue,
    scale: string,
    flags: string)

  /** Schema entries keyed by parameter name, in the order they were first assigned. */
  type Schema = Dict<string, ParamDef>

  datatype EnumEntry = EnumEntry(name: string, index: int)
  datatype EnumInfo = EnumInfo(index: int, range: int)

  /** The captures of one `value[...ID::target] = std::make_unique<valueClass>(default, scale, _, flags);`. */
  datatype Construction = Construction(
    target: string,
    valueClass: string,
    defaultText: string,
    scaleText: string,
    flagsText: string)

  datatype SchemaError =
    | MalformedAssignment(line: string)  // more than one '=' on an enum line
    | NonIntegerIndex(line: string)      // `name = expr` where expr is not an integer literal
    | EmptyEnum                          // nothing left to pop as the terminator
    | UnknownArrayBase(name: string)     // `enum[name]` raises KeyError

  /** `convert_string`: an integer if `int()` accepts it, else a float if `float()` does, else a boolean literal, else the text. */
  function ConvertString(s: string): (r: DefaultValue) {
    match ParseInt(s)
    case Some(n) => DInt(n)
    case None =>
      if IsFloatLiteral(s) then DFloat(s)
      else if s == "true" then DBool(true)
      else if s == "false" then DBool(false)
      else DText(s)
  }

  /** The boolean literals are neither integers nor floats to Python. */
  lemma BoolLiteralNotNumber(s: string)
    requires s == "true" || s == "false"
    ensures ParseInt(s).None? && !IsFloatLiteral(s)
  {
    WordNotNumber(s);
  }

  lemma ConvertStringCases(s: string)
    ensures ConvertString(s).DInt? <==> ParseInt(s).Some?
    ensures ConvertString(s).DInt? ==> ConvertString(s).i == ParseInt(s).value
    ensures ConvertString(s).DFloat? <==> ParseInt(s).None? && IsFloatLiteral(s)
    ensures ConvertString(s) == DBool(true) <==> s == "true"
    ensures ConvertString(s) == DBool(false) <==> s == "false"
    ensures ConvertString(s) == DText(s) <==>
      ParseInt(s).None? && !IsFloatLiteral(s) && s != "true" && s != "false"
  {
    if s == "true" || s == "false" {
      BoolLiteralNotNumber(s);
    }
  }

  /** An integer default written in decimal comes back as that integer. */
  lemma ConvertStringOfDecimal(i: int)
    ensures ConvertString(IntToDecimal(i)) == DInt(i)
  {
    ParseIntOfDecimal(i);
  }

  /** Blank lines and any line with a `//` comment are dropped; the rest are stripped and lose their commas. */
  function CleanEnumLines(lines: seq<string>): (r: seq<string>)
    ensures |r| <= |lines|
  {
    if |lines| == 0 then []
    else
      var rest := CleanEnumLines(lines[1..]);
      if Strip(lines[0]) != "" && !Contains(lines[0], "//")
      then [RemoveChar(Strip(lines[0]), ',')] + rest
      else rest
  }

  /** Number one cleaned enum line given the previous entry's index. */
  function NumberLine(prev: int, line: string): Result<EnumEntry, SchemaError> {
    if !Contains(line, "=") then Success(EnumEntry(line, prev + 1))
    else
      var compact := RemoveChar(line, ' ');
      match Find(compact, "=")
      case None => Failure(MalformedAssignment(line))
      case Some(k) =>
        var name := compact[..k];
        var value := compact[k + 1..];
        if Contains(value, "=") then Failure(MalformedAssignment(line))
        else match ParseInt(value)
          case None => Failure(NonIntegerIndex(line))
          case Some(n) => Success(EnumEntry(name, n))
  }

  /** Number the cleaned lines; the first bare entry gets `prev + 1`. */
  function NumberLines(lines: seq<string>, prev: int): (r: Result<seq<EnumEntry>, SchemaError>)
    ensures r.Success? ==> |r.value| == |lines|
  {
    if |lines| == 0 then Success([])
    else
      var e :- NumberLine(prev, lines[0]);
      var rest :- NumberLines(lines[1..], e.index);
      Success([e] + rest)
  }

  /** Each entry but the last paired with its range: the next entry's index minus its own. */
  function WithRanges(es: seq<EnumEntry>): (r: seq<(string, EnumInfo)>)
    requires |es| > 0
    ensures |r| == |es| - 1
  {
    seq(|es| - 1, i requires 0 <= i < |es| - 1 =>
      (es[i].name, EnumInfo(es[i].index, es[i + 1].index - es[i].index)))
  }

  /** `enum[name] = elem` for each pair in order: a later duplicate name overwrites. */
  function ToTable(pairs: seq<(string, EnumInfo)>): map<string, EnumInfo> {
    if |pairs| == 0 then map[]
    else ToTable(pairs[..|pairs| - 1])[pairs[|pairs| - 1].0 := pairs[|pairs| - 1].1]
  }

  /** `get_enum_range`. */
  function GetEnumRange(body: seq<string>): Result<map<string, EnumInfo>, SchemaError> {
    var es :- NumberLines(CleanEnumLines(body), -1);
    if |es| == 0 then Failure(EmptyEnum) else Success(ToTable(WithRanges(es)))
  }

  /** The value class `IntValue` is stored as "I"; every other value class as "d". */
  function TypeOf(valueClass: string): (t: TypeCode)
    ensures t == IntType <==> valueClass == "IntValue"
  {
    if valueClass == "IntValue" then IntType else DoubleType
  }

  const ArrayMarker: string := " + i"

  predicate IsArrayTarget(target: string) {
    Contains(target, ArrayMarker)
  }

  /** The enum entry an array target refers to: the text before its last " + i". */
  function ArrayBase(target: string): string {
    RPartitionHead(target, ArrayMarker)
  }

  /** `name[0:-1]`: the base entry name without its final character (the '0'). */
  function DropLast(name: string): string {
    if |name| == 0 then "" else name[..|name| - 1]
  }

  /** The `k`-th element of an array statement whose base enum entry is `base`. */
  function ArrayElement(c: Construction, base: string, k: nat): (string, ParamDef) {
    var n := NatToDecimal(k);
    (DropLast(base) + n,
     ParamDef(TypeOf(c.valueClass), base + " + " + n, ConvertString(Replace(c.defaultText, "idx", n)),
              c.scaleText, c.flagsText))
  }

  /**
   * The schema entries one construction statement contributes, in order: a
   * scalar target is its own name and index; an array target fails unless
   * its base is an enum entry, and otherwise yields one entry per element
   * of the base's range (none for a range below one).
   */
  function Expand(c: Construction, table: map<string, EnumInfo>): (r: Result<seq<(string, ParamDef)>, SchemaError>)
    ensures r.Failure? <==> IsArrayTarget(c.target) && ArrayBase(c.target) !in table
    ensures r.Success? && !IsArrayTarget(c.target) ==>
      |r.value| == 1 && r.value[0].0 == c.target && r.value[0].1.index == c.target
      && r.value[0].1.default == ConvertString(c.defaultText)
    ensures r.Success? && IsArrayTarget(c.target) ==>
      var info := table[ArrayBase(c.target)];
      |r.value| == (if info.range < 0 then 0 else info.range)
      && forall k :: 0 <= k < |r.value| ==> r.value[k] == ArrayElement(c, ArrayBase(c.target), k)
    ensures r.Success? ==> forall k :: 0 <= k < |r.value| ==>
      r.value[k].1.typeCode == TypeOf(c.valueClass)
      && r.value[k].1.scale == c.scaleText && r.value[k].1.flags == c.flagsText
  {
    if IsArrayTarget(c.target) then
      var base := ArrayBase(c.target);
      if base !in table then Failure(UnknownArrayBase(base))
      else
        var count := if table[base].range < 0 then 0 else table[base].range;
        Success(seq(count, k requires 0 <= k < count => ArrayElement(c, base, k)))
    else
      Success([(c.target, ParamDef(TypeOf(c.valueClass), c.target, ConvertString(c.defaultText),
                                   c.scaleText, c.flagsText))])
  }

  /** All entries the statements contribute, concatenated in statement order. */
  function ExpandAll(cs: seq<Construction>, table: map<string, EnumInfo>): Result<seq<(string, ParamDef)>, SchemaError> {
    if |cs| == 0 then Success([])
    else
      var first :- Expand(cs[0], table);
      var rest :- ExpandAll(cs[1..], table);
      Success(first + rest)
  }

  /** The statement loop of `extract_parameter`: assign each statement's entries into `data` in turn. */
  function Assign(data: Schema, cs: seq<Construction>, table: map<string, EnumInfo>): Result<Schema, SchemaError>
    decreases |cs|
  {
    if |cs| == 0 then Success(data)
    else
      var entries :- Expand(cs[0], table);
      Assign(PutAll(data, entries), cs[1..], table)
  }

  /** `extract_parameter` without the file handling: enum numbering, then the statements. */
  function ExtractParameter(body: seq<string>, cs: seq<Construction>): Result<Schema, SchemaError> {
    var table :- GetEnumRange(body);
    Assign(Empty(), cs, table)
  }

  // ---------------------------------------------------------------------
  // Enum body cleaning

  lemma {:induction false} CleanEnumLinesAppend(a: seq<string>, b: seq<string>)
    ensures CleanEnumLines(a + b) == CleanEnumLines(a) + CleanEnumLines(b)
  {
    if |a| == 0 {
      assert a + b == b;
    } else {
      assert (a + b)[0] == a[0];
      assert (a + b)[1..] == a[1..] + b;
      CleanEnumLinesAppend(a[1..], b);
    }
  }

  lemma CleanDropsLine(c: string)
    requires Strip(c) == "" || Contains(c, "//")
    ensures CleanEnumLines([c]) == []
  {
    assert [c][1..] == [];
  }

  /** A blank line, or a line holding a `//` comment, anywhere in the enum body changes nothing. */
  lemma CommentLineIgnored(before: seq<string>, c: string, after: seq<string>)
    requires Strip(c) == "" || Contains(c, "//")
    ensures GetEnumRange(before + [c] + after) == GetEnumRange(before + after)
  {
    CleanDropsLine(c);
    CleanEnumLinesAppend(before + [c], after);
    CleanEnumLinesAppend(before, [c]);
    CleanEnumLinesAppend(before, after);
    assert CleanEnumLines(before + [c]) == CleanEnumLines(before);
    assert CleanEnumLines(before + [c] + after) == CleanEnumLines(before + after);
  }

  /** Any other line is kept, stripped and without its commas. */
  lemma KeptLine(before: seq<string>, c: string, after: seq<string>)
    requires Strip(c) != "" && !Contains(c, "//")
    ensures CleanEnumLines(before + [c] + after) ==
      CleanEnumLines(before) + [RemoveChar(Strip(c), ',')] + CleanEnumLines(after)
  {
    assert CleanEnumLines([c]) == [RemoveChar(Strip(c), ',')] by {
      assert [c][1..] == [];
    }
    CleanEnumLinesAppend(before + [c], after);
    CleanEnumLinesAppend(before, [c]);
  }

  // ---------------------------------------------------------------------
  // Numbering

  /** Entry `i` is numbered from entry `i - 1` (from `prev` for the first). */
  lemma {:induction false} NumberLinesStep(lines: seq<string>, prev: int, i: nat)
    requires NumberLines(lines, prev).Success? && i < |lines|
    ensures var es := NumberLines(lines, prev).value;
      NumberLine(if i == 0 then prev else es[i - 1].index, lines[i]) == Success(es[i])
  {
    var e := NumberLine(prev, lines[0]).value;
    if i > 0 {
      NumberLinesStep(lines[1..], e.index, i - 1);
    }
  }

  /** If line `i` cannot be numbered after the ones before it, numbering fails. */
  lemma {:induction false} NumberLinesFails(lines: seq<string>, prev: int, i: nat)
    requires i < |lines| && NumberLines(lines[..i], prev).Success?
    requires var es := NumberLines(lines[..i], prev).value;
      NumberLine(if i == 0 then prev else es[i - 1].index, lines[i]).Failure?
    ensures NumberLines(lines, prev).Failure?
  {
    if i > 0 {
      assert lines[..i][0] == lines[0];
      assert lines[..i][1..] == lines[1..][..i - 1];
      var e := NumberLine(prev, lines[0]).value;
      NumberLinesFails(lines[1..], e.index, i - 1);
    }
  }

  /** Without explicit assignments the entries are numbered `prev + 1`, `prev + 2`, ... */
  lemma {:induction false} NumberLinesBare(lines: seq<string>, prev: int)
    requires forall i :: 0 <= i < |lines| ==> !Contains(lines[i], "=")
    ensures NumberLines(lines, prev).Success?
    ensures forall i :: 0 <= i < |lines| ==> NumberLines(lines, prev).value[i] == EnumEntry(lines[i], prev + 1 + i)
  {
    if |lines| > 0 {
      NumberLinesBare(lines[1..], prev + 1);
    }
  }

  lemma RemoveSpacesAroundEquals(name: string, d: string)
    requires ' ' !in name
    ensures RemoveChar(name + " = " + d, ' ') == name + "=" + RemoveChar(d, ' ')
  {
    var d' := RemoveChar(d, ' ');
    var tail := [' '] + d;
    var rest := ['='] + tail;
    assert name + " = " + d == name + ([' '] + rest);
    assert RemoveChar(tail, ' ') == d' by {
      RemoveCharAppend([' '], d, ' ');
      RemoveCharSingle(' ', ' ');
    }
    assert RemoveChar(rest, ' ') == ['='] + d' by {
      RemoveCharAppend(['='], tail, ' ');
      RemoveCharSingle('=', ' ');
    }
    assert RemoveChar([' '] + rest, ' ') == ['='] + d' by {
      RemoveCharAppend([' '], rest, ' ');
      RemoveCharSingle(' ', ' ');
    }
    RemoveCharAppend(name, [' '] + rest, ' ');
    RemoveCharAbsent(name, ' ');
    assert name + "=" + d' == name + (['='] + d');
  }

  lemma DecimalHasNoSeparators(n: int)
    ensures ' ' !in IntToDecimal(n) && '=' !in IntToDecimal(n)
  {
    var d := IntToDecimal(n);
    assert forall i :: 0 <= i < |d| ==> d[i] == '-' || IsDigit(d[i]);
  }

  /**
   * `name = value` with one space on each side of '=': the spaces inside the
   * value are dropped, and the line is numbered by the integer the rest
   * spells, or rejected when `int()` rejects it.
   */
  lemma NumberLineOfAssignment(prev: int, name: string, value: string)
    requires ' ' !in name && '=' !in name && '=' !in value
    ensures NumberLine(prev, name + " = " + value) ==
      match ParseInt(RemoveChar(value, ' '))
      case Some(n) => Success(EnumEntry(name, n))
      case None => Failure(NonIntegerIndex(name + " = " + value))
  {
    var line := name + " = " + value;
    var v := RemoveChar(value, ' ');
    AssignmentHasEquals(name, value);
    var compact := RemoveChar(line, ' ');
    RemoveSpacesAroundEquals(name, value);
    assert compact == name + ['='] + v;
    FindCharAfter(name, '=', v);
    assert compact[..|name|] == name;
    assert compact[|name| + 1..] == v;
    ContainsChar(v, '=');
  }

  lemma AssignmentHasEquals(name: string, value: string)
    ensures Contains(name + " = " + value, "=")
  {
    assert name + " = " + value == (name + " ") + "=" + (" " + value);
    ContainsMiddle(name + " ", "=", " " + value);
  }

  /** An explicit `name = n` restarts the numbering at `n` whatever came before. */
  lemma NumberLineOfDecimal(prev: int, name: string, n: int)
    requires ' ' !in name && '=' !in name
    ensures NumberLine(prev, name + " = " + IntToDecimal(n)) == Success(EnumEntry(name, n))
  {
    DecimalHasNoSeparators(n);
    NumberLineOfAssignment(prev, name, IntToDecimal(n));
    RemoveCharAbsent(IntToDecimal(n), ' ');
    ParseIntOfDecimal(n);
  }

  // ---------------------------------------------------------------------
  // Ranges and the enum table

  lemma {:induction false} ToTableDomain(pairs: seq<(string, EnumInfo)>, k: string)
    ensures k in ToTable(pairs) <==> k in KeysOf(pairs)
  {
    if |pairs| > 0 {
      var init := pairs[..|pairs| - 1];
      ToTableDomain(init, k);
      assert KeysOf(pairs) == KeysOf(init) + [pairs[|pairs| - 1].0];
    }
  }

  /** A name maps to the information of its last occurrence. */
  lemma {:induction false} ToTableLast(pairs: seq<(string, EnumInfo)>, i: nat)
    requires i < |pairs|
    requires forall j :: i < j < |pairs| ==> pairs[j].0 != pairs[i].0
    ensures pairs[i].0 in ToTable(pairs) && ToTable(pairs)[pairs[i].0] == pairs[i].1
  {
    if i < |pairs| - 1 {
      var init := pairs[..|pairs| - 1];
      ToTableLast(init, i);
    }
  }

  /** The entries of the cleaned enum body, if they can all be numbered. */
  function Entries(body: seq<string>): Result<seq<EnumEntry>, SchemaError> {
    NumberLines(CleanEnumLines(body), -1)
  }

  /**
   * `get_enum_range` fails exactly when numbering fails or nothing is left
   * to pop, and its table holds exactly the names of the entries before the
   * terminator.
   */
  lemma GetEnumRangeDomain(body: seq<string>, k: string)
    ensures GetEnumRange(body).Success? <==> Entries(body).Success? && |CleanEnumLines(body)| > 0
    ensures GetEnumRange(body).Success? ==>
      var es := Entries(body).value;
      (k in GetEnumRange(body).value <==> exists i :: 0 <= i < |es| - 1 && es[i].name == k)
  {
    match Entries(body)
    case Failure(_) =>
    case Success(es) =>
      if |es| > 0 {
        assert GetEnumRange(body) == Success(ToTable(WithRanges(es)));
        RangeTableDomain(es, k);
      }
  }

  /** The table built from numbered entries holds the names of all but the last. */
  lemma RangeTableDomain(es: seq<EnumEntry>, k: string)
    requires |es| > 0
    ensures k in ToTable(WithRanges(es)) <==> exists i :: 0 <= i < |es| - 1 && es[i].name == k
  {
    var pairs := WithRanges(es);
    ToTableDomain(pairs, k);
    if k in KeysOf(pairs) {
      var i :| 0 <= i < |pairs| && KeysOf(pairs)[i] == k;
      assert es[i].name == k;
    }
    if exists i :: 0 <= i < |es| - 1 && es[i].name == k {
      var i :| 0 <= i < |es| - 1 && es[i].name == k;
      assert KeysOf(pairs)[i] == k;
    }
  }

  /** An entry's range is the next entry's index minus its own (the last occurrence wins for a repeated name). */
  lemma GetEnumRangeEntry(body: seq<string>, es: seq<EnumEntry>, i: nat)
    requires Entries(body) == Success(es)
    requires i < |es| - 1
    requires forall j :: i < j < |es| - 1 ==> es[j].name != es[i].name
    ensures GetEnumRange(body).Success? && es[i].name in GetEnumRange(body).value
    ensures GetEnumRange(body).value[es[i].name] == EnumInfo(es[i].index, es[i + 1].index - es[i].index)
  {
    var pairs := WithRanges(es);
    assert GetEnumRange(body) == Success(ToTable(pairs));
    assert forall j :: i < j < |pairs| ==> pairs[j].0 == es[j].name;
    ToTableLast(pairs, i);
  }

  lemma DropTrailingComma(t: string)
    requires ',' !in t
    ensures RemoveChar(t + ",", ',') == t
  {
    RemoveCharAppend(t, ",", ',');
    RemoveCharAbsent(t, ',');
    RemoveCharSingle(',', ',');
  }

  /** An indented `entry,` line is kept as `entry`. */
  lemma IndentedEntryKept(t: string)
    requires |t| > 0 && !IsSpace(t[0]) && ',' !in t && '/' !in t
    ensures var line := "  " + t + ",";
      Strip(line) != "" && !Contains(line, "//") && RemoveChar(Strip(line), ',') == t
  {
    var line := "  " + t + ",";
    assert line == "  " + (t + ",");
    StripPadded("  ", t + ",");
    DropTrailingComma(t);
    assert '/' !in line;
    NotContainsWithoutFirst(line, "//");
  }

  /**
   * The array boundary of the CubicPadSynth header: the entry
   * `lfoWavetable0 = 1441`, a blank line, a comment, a blank line, then
   * `tableBaseFrequency = 1505` and `padSynthSeed` give the wavetable array
   * 64 entries.
   */
  lemma CubicPadSynthWavetableRange(a: string, comment: string, b: string, c: string)
    requires a == "lfoWavetable0 = 1441"
    requires comment == "  // Do not add parameter here."
    requires b == "tableBaseFrequency = 1505"
    requires c == "padSynthSeed"
    ensures var body := ["  " + a + ",", "", comment, "", "  " + b + ",", "  " + c + ","];
      GetEnumRange(body).Success? && "lfoWavetable0" in GetEnumRange(body).value
      && GetEnumRange(body).value["lfoWavetable0"] == EnumInfo(1441, 64)
  {
    var body := ["  " + a + ",", "", comment, "", "  " + b + ",", "  " + c + ","];
    var es := [EnumEntry("lfoWavetable0", 1441), EnumEntry("tableBaseFrequency", 1505), EnumEntry(c, 1506)];
    assert Entries(body) == Success(es) by {
      CubicPadSynthLines(a, comment, b, c);
      CubicPadSynthFirst(a);
      CubicPadSynthSecond(b);
      CubicPadSynthThird(c);
      NumberThree(-1, a, b, c, es[0], es[1], es[2]);
      EntriesOf(body, [a, b, c], es);
    }
    GetEnumRangeEntry(body, es, 0);
  }

  lemma EntriesOf(body: seq<string>, lines: seq<string>, es: seq<EnumEntry>)
    requires CleanEnumLines(body) == lines && NumberLines(lines, -1) == Success(es)
    ensures Entries(body) == Success(es)
  {
  }

  /** The six CubicPadSynth lines clean to the three entries. */
  lemma CubicPadSynthLines(a: string, comment: string, b: string, c: string)
    requires a == "lfoWavetable0 = 1441"
    requires comment == "  // Do not add parameter here."
    requires b == "tableBaseFrequency = 1505"
    requires c == "padSynthSeed"
    ensures CleanEnumLines(["  " + a + ",", "", comment, "", "  " + b + ",", "  " + c + ","]) == [a, b, c]
  {
    PlainEntries(a, b, c);
    IndentedLine(a);
    IndentedLine(b);
    IndentedLine(c);
    StripUnchanged("");
    CleanDropsLine("");
    CommentDropped(comment);
    CleanDropsLine(comment);
    SixLinesCleaned("  " + a + ",", "", comment, "", "  " + b + ",", "  " + c + ",", a, b, c);
  }

  lemma PlainEntries(a: string, b: string, c: string)
    requires a == "lfoWavetable0 = 1441" && b == "tableBaseFrequency = 1505" && c == "padSynthSeed"
    ensures PlainEntry(a) && PlainEntry(b) && PlainEntry(c)
  {
  }

  /** Six lines of which the second to fourth are dropped clean to what the others keep. */
  lemma SixLinesCleaned(l0: string, l1: string, l2: string, l3: string, l4: string, l5: string, a: string, b: string, c: string)
    requires CleanEnumLines([l0]) == [a]
    requires CleanEnumLines([l1]) == [] && CleanEnumLines([l2]) == [] && CleanEnumLines([l3]) == []
    requires CleanEnumLines([l4]) == [b] && CleanEnumLines([l5]) == [c]
    ensures CleanEnumLines([l0, l1, l2, l3, l4, l5]) == [a, b, c]
  {
    var body := [l0, l1, l2, l3, l4, l5];
    CleanFirst(body[5..]);
    CleanFirst(body[4..]);
    CleanFirst(body[3..]);
    CleanFirst(body[2..]);
    CleanFirst(body[1..]);
    CleanFirst(body);
    assert body[5..][1..] == [];
    assert body[4..][1..] == body[5..];
    assert body[3..][1..] == body[4..];
    assert body[2..][1..] == body[3..];
    assert body[1..][1..] == body[2..];
  }

  /** Cleaning works line by line. */
  lemma CleanFirst(lines: seq<string>)
    requires |lines| > 0
    ensures CleanEnumLines(lines) == CleanEnumLines([lines[0]]) + CleanEnumLines(lines[1..])
  {
    CleanEnumLinesAppend([lines[0]], lines[1..]);
    assert [lines[0]] + lines[1..] == lines;
  }

  /** An entry as the headers write it: no leading space, no comma, no comment. */
  predicate PlainEntry(t: string) {
    |t| > 0 && !IsSpace(t[0]) && ',' !in t && '/' !in t
  }

  /** A plain entry indented by two spaces and followed by a comma is kept as the entry. */
  lemma IndentedLine(t: string)
    requires PlainEntry(t)
    ensures CleanEnumLines(["  " + t + ","]) == [t]
  {
    IndentedEntryKept(t);
    KeptAlone("  " + t + ",");
  }

  lemma KeptAlone(line: string)
    requires Strip(line) != "" && !Contains(line, "//")
    ensures CleanEnumLines([line]) == [RemoveChar(Strip(line), ',')]
  {
    assert [line][1..] == [];
  }

  lemma CommentDropped(comment: string)
    requires comment == "  // Do not add parameter here."
    ensures Contains(comment, "//")
  {
    assert comment[2] == '/' && comment[3] == '/';
    assert comment[2..4] == "//";
    assert OccursAt(comment, "//", 2);
    ContainsIff(comment, "//");
  }

  lemma CubicPadSynthFirst(a: string)
    requires a == "lfoWavetable0 = 1441"
    ensures NumberLine(-1, a) == Success(EnumEntry("lfoWavetable0", 1441))
  {
    assert a == "lfoWavetable0" + " = " + IntToDecimal(1441);
    NumberLineOfDecimal(-1, "lfoWavetable0", 1441);
  }

  lemma CubicPadSynthSecond(b: string)
    requires b == "tableBaseFrequency = 1505"
    ensures NumberLine(1441, b) == Success(EnumEntry("tableBaseFrequency", 1505))
  {
    assert b == "tableBaseFrequency" + " = " + IntToDecimal(1505);
    NumberLineOfDecimal(1441, "tableBaseFrequency", 1505);
  }

  lemma CubicPadSynthThird(c: string)
    requires c == "padSynthSeed"
    ensures NumberLine(1505, c) == Success(EnumEntry(c, 1506))
  {
    NotContainsWithoutFirst(c, "=");
  }

  lemma NumberThree(prev: int, x: string, y: string, z: string, e1: EnumEntry, e2: EnumEntry, e3: EnumEntry)
    requires NumberLine(prev, x) == Success(e1)
    requires NumberLine(e1.index, y) == Success(e2)
    requires NumberLine(e2.index, z) == Success(e3)
    ensures NumberLines([x, y, z], prev) == Success([e1, e2, e3])
  {
    assert [z][1..] == [];
    assert [e3] + [] == [e3];
    assert NumberLines([z], e2.index) == Success([e3]);
    assert [y, z][1..] == [z];
    assert [e2] + [e3] == [e2, e3];
    assert NumberLines([y, z], e1.index) == Success([e2, e3]);
    assert [e1] + [e2, e3] == [e1, e2, e3];
    assert [x, y, z][1..] == [y, z];
  }

  /**
   * L4Reverb's enum starts `time0 = 0,` then `innerFeed0 = nDepth1,`: the
   * second index is a constant's name, which `int()` rejects, so numbering
   * that header stops at its second line, whatever follows.
   */
  lemma L4ReverbNumberingStops(prev: int, lines: seq<string>)
    requires |lines| >= 2 && lines[0] == "time0 = 0" && lines[1] == "innerFeed0 = nDepth1"
    ensures NumberLines(lines, prev) == Failure(NonIntegerIndex(lines[1]))
  {
    L4ReverbFirstLine(prev, lines[0]);
    L4ReverbSecondLine(lines[1]);
    SecondLineFails(prev, lines, EnumEntry("time0", 0), NonIntegerIndex(lines[1]));
  }

  lemma L4ReverbSecondLine(second: string)
    requires second == "innerFeed0 = nDepth1"
    ensures NumberLine(0, second) == Failure(NonIntegerIndex(second))
  {
    var name, value := "innerFeed0", "nDepth1";
    assert second == name + " = " + value;
    L4ReverbNameRejected(name, value);
  }

  lemma L4ReverbFirstLine(prev: int, first: string)
    requires first == "time0 = 0"
    ensures NumberLine(prev, first) == Success(EnumEntry("time0", 0))
  {
    assert first == "time0" + " = " + IntToDecimal(0);
    NumberLineOfDecimal(prev, "time0", 0);
  }

  /** Numbering fails with the second line's error when the first line is numbered and the second is not. */
  lemma {:induction false} SecondLineFails(prev: int, lines: seq<string>, e: EnumEntry, err: SchemaError)
    requires |lines| >= 2 && NumberLine(prev, lines[0]) == Success(e) && NumberLine(e.index, lines[1]) == Failure(err)
    ensures NumberLines(lines, prev) == Failure(err)
  {
    assert NumberLines(lines[1..], e.index) == Failure(err) by {
      assert lines[1..][0] == lines[1];
    }
  }

  lemma L4ReverbNameRejected(name: string, value: string)
    requires name == "innerFeed0" && value == "nDepth1"
    ensures NumberLine(0, name + " = " + value) == Failure(NonIntegerIndex(name + " = " + value))
  {
    assert ' ' !in name && '=' !in name && '=' !in value;
    assert value[0] == 'n';
    ParseIntRejects(RemoveChar(value, ' '), 'n');
    RejectedAssignment(0, name, value);
  }

  /**
   * Further down, L4Reverb numbers an array with arithmetic (`d3Feed0 = 3 *
   * nDepth1 + nDepth2`), which `int()` rejects as well.
   */
  lemma L4ReverbExpressionRejected(prev: int, name: string, value: string)
    requires name == "d3Feed0" && value == "3 * nDepth1 + nDepth2"
    ensures NumberLine(prev, name + " = " + value) == Failure(NonIntegerIndex(name + " = " + value))
  {
    L4ReverbPieces(name, value);
    L4ReverbValueRejected(value);
    RejectedAssignment(prev, name, value);
  }

  lemma L4ReverbPieces(name: string, value: string)
    requires name == "d3Feed0" && value == "3 * nDepth1 + nDepth2"
    ensures ' ' !in name && '=' !in name && '=' !in value
  {
  }

  lemma L4ReverbValueRejected(value: string)
    requires value == "3 * nDepth1 + nDepth2"
    ensures ParseInt(RemoveChar(value, ' ')).None?
  {
    assert value[2] == '*';
    ParseIntRejects(RemoveChar(value, ' '), '*');
  }

  lemma RejectedAssignment(prev: int, name: string, value: string)
    requires ' ' !in name && '=' !in name && '=' !in value
    requires ParseInt(RemoveChar(value, ' ')).None?
    ensures NumberLine(prev, name + " = " + value) == Failure(NonIntegerIndex(name + " = " + value))
  {
    NumberLineOfAssignment(prev, name, value);
  }

  // ---------------------------------------------------------------------
  // Statements

  /** Element names of one array are distinct: they differ in their decimal suffix. */
  lemma ArrayKeysDistinct(c: Construction, table: map<string, EnumInfo>)
    requires IsArrayTarget(c.target) && Expand(c, table).Success?
    ensures Distinct(KeysOf(Expand(c, table).value))
  {
    var es := Expand(c, table).value;
    var base := ArrayBase(c.target);
    var p := DropLast(base);
    forall i, j | 0 <= i < j < |es| ensures KeysOf(es)[i] != KeysOf(es)[j] {
      var x, y := NatToDecimal(i), NatToDecimal(j);
      if p + x == p + y {
        assert x == (p + x)[|p|..];
        assert y == (p + y)[|p|..];
        NatToDecimalInjective(i, j);
      }
    }
  }

  /** Element `k` of an array gets the default with every "idx" replaced by `k`; without "idx" all elements share it. */
  lemma ArrayDefaultWithoutIdx(c: Construction, base: string, k: nat)
    requires !Contains(c.defaultText, "idx")
    ensures ArrayElement(c, base, k).1.default == ConvertString(c.defaultText)
  {
    ReplaceAbsent(c.defaultText, "idx", NatToDecimal(k));
  }

  /** The statements fail exactly when one of them is an array over a name the enum lacks. */
  lemma {:induction false} ExpandAllFails(cs: seq<Construction>, table: map<string, EnumInfo>)
    ensures ExpandAll(cs, table).Failure? <==>
      exists i :: 0 <= i < |cs| && IsArrayTarget(cs[i].target) && ArrayBase(cs[i].target) !in table
  {
    if |cs| > 0 {
      ExpandAllFails(cs[1..], table);
      if exists i :: 0 <= i < |cs[1..]| && IsArrayTarget(cs[1..][i].target) && ArrayBase(cs[1..][i].target) !in table {
        var i :| 0 <= i < |cs[1..]| && IsArrayTarget(cs[1..][i].target) && ArrayBase(cs[1..][i].target) !in table;
        assert cs[i + 1] == cs[1..][i];
      }
      if exists i :: 0 <= i < |cs| && IsArrayTarget(cs[i].target) && ArrayBase(cs[i].target) !in table {
        var i :| 0 <= i < |cs| && IsArrayTarget(cs[i].target) && ArrayBase(cs[i].target) !in table;
        if i > 0 {
          assert cs[1..][i - 1] == cs[i];
        }
      }
    }
  }

  /** Assigning statement by statement is assigning all their entries in one sweep. */
  lemma {:induction false} AssignIsPutAll(d: Schema, cs: seq<Construction>, table: map<string, EnumInfo>)
    ensures Assign(d, cs, table).Success? <==> ExpandAll(cs, table).Success?
    ensures Assign(d, cs, table).Success? ==> Assign(d, cs, table).value == PutAll(d, ExpandAll(cs, table).value)
    decreases |cs|
  {
    if |cs| > 0 && Expand(cs[0], table).Success? {
      var first := Expand(cs[0], table).value;
      AssignIsPutAll(PutAll(d, first), cs[1..], table);
      if ExpandAll(cs[1..], table).Success? {
        PutAllConcat(d, first, ExpandAll(cs[1..], table).value);
      }
    }
  }

  /**
   * The schema lists each generated name where it was first assigned, with
   * distinct keys; when no name is generated twice, it is exactly the
   * generated entries in statement order.
   */
  lemma ExtractParameterOrder(body: seq<string>, cs: seq<Construction>)
    requires ExtractParameter(body, cs).Success?
    ensures GetEnumRange(body).Success? && ExpandAll(cs, GetEnumRange(body).value).Success?
    ensures var r := ExtractParameter(body, cs).value;
      var ps := ExpandAll(cs, GetEnumRange(body).value).value;
      Valid(r) && Keys(r) == FirstOccurrences([], KeysOf(ps))
    ensures var r := ExtractParameter(body, cs).value;
      var ps := ExpandAll(cs, GetEnumRange(body).value).value;
      Distinct(KeysOf(ps)) ==>
        Keys(r) == KeysOf(ps) && forall i :: 0 <= i < |ps| ==> Get(r, ps[i].0) == Some(ps[i].1)
  {
    var table := GetEnumRange(body).value;
    AssignIsPutAll(Empty(), cs, table);
    var ps := ExpandAll(cs, table).value;
    var r := ExtractParameter(body, cs).value;
    assert r == PutAll(Empty(), ps);
    assert Valid(Empty<string, ParamDef>());
    PutAllKeys(Empty(), ps);
    if Distinct(KeysOf(ps)) {
      assert Keys(Empty<string, ParamDef>()) + KeysOf(ps) == KeysOf(ps);
      PutAllFreshKeys(Empty(), ps);
      forall i | 0 <= i < |ps| ensures Get(r, ps[i].0) == Some(ps[i].1) {
        PutAllGet(Empty(), ps, i);
      }
    }
  }
}
