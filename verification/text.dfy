/**
 * The handful of Python `str` operations the preset scripts rely on, written
 * out over `seq<char>`: `strip`, `replace`, `find`, `rpartition`, `str(n)`,
 * and the literal grammars accepted by `int(s)` and `float(s)`.
 *
 * Only ASCII is modelled: Python also strips non-ASCII white space and
 * accepts non-ASCII decimal digits, which these definitions do not.
 */
module Text {
  import opened Wrappers

  /** The ASCII characters for which Python's `str.isspace` is true. */
  predicate IsSpace(c: char) {
    c == ' ' || c == '\t' || c == '\n' || c == '\r' || c == '\U{B}' || c == '\U{C}'
    || c == '\U{1C}' || c == '\U{1D}' || c == '\U{1E}' || c == '\U{1F}'
  }

  predicate IsDigit(c: char) { '0' <= c <= '9' }

  function DigitValue(c: char): (d: nat)
    requires IsDigit(c)
    ensures d < 10
  {
    (c as int) - ('0' as int)
  }

  function DigitChar(d: nat): (c: char)
    requires d < 10
    ensures IsDigit(c) && DigitValue(c) == d
  {
    (('0' as int) + d) as char
  }

  /** `s.lstrip()`. */
  function StripLeft(s: string): (r: string)
    ensures |r| <= |s| && r == s[|s| - |r|..]
    ensures |r| > 0 ==> !IsSpace(r[0])
    ensures forall i :: 0 <= i < |s| - |r| ==> IsSpace(s[i])
  {
    if |s| > 0 && IsSpace(s[0]) then StripLeft(s[1..]) else s
  }

  /** `s.rstrip()`. */
  function StripRight(s: string): (r: string)
    ensures |r| <= |s| && r == s[..|r|]
    ensures |r| > 0 ==> !IsSpace(r[|r| - 1])
    ensures forall i :: |r| <= i < |s| ==> IsSpace(s[i])
  {
    if |s| > 0 && IsSpace(s[|s| - 1]) then StripRight(s[..|s| - 1]) else s
  }

  /** `s.strip()`: white space removed from both ends. */
  function Strip(s: string): string {
    StripRight(StripLeft(s))
  }

  lemma StripUnchanged(s: string)
    requires |s| > 0 ==> !IsSpace(s[0]) && !IsSpace(s[|s| - 1])
    ensures Strip(s) == s
  {
  }

  /** Leading white space is all `strip` removes from text that ends in a non-space. */
  lemma StripPadded(pad: string, t: string)
    requires forall i :: 0 <= i < |pad| ==> IsSpace(pad[i])
    requires |t| > 0 && !IsSpace(t[0]) && !IsSpace(t[|t| - 1])
    ensures Strip(pad + t) == t
  {
    var s := pad + t;
    assert s[|pad|] == t[0];
    assert StripLeft(s) == t;
    StripUnchanged(t);
  }

  /** `s.replace(c, "")` for a single character `c`. */
  function RemoveChar(s: string, c: char): (r: string)
    ensures c !in r
    ensures forall x :: x in r <==> x in s && x != c
  {
    if |s| == 0 then []
    else if s[0] == c then RemoveChar(s[1..], c)
    else [s[0]] + RemoveChar(s[1..], c)
  }

  lemma {:induction false} RemoveCharAppend(a: string, b: string, c: char)
    ensures RemoveChar(a + b, c) == RemoveChar(a, c) + RemoveChar(b, c)
  {
    if |a| == 0 {
      assert a + b == b;
    } else {
      assert (a + b)[0] == a[0];
      assert (a + b)[1..] == a[1..] + b;
      RemoveCharAppend(a[1..], b, c);
    }
  }

  lemma RemoveCharSingle(x: char, c: char)
    ensures RemoveChar([x], c) == if x == c then [] else [x]
  {
    assert [x][1..] == [];
  }

  lemma {:induction false} RemoveCharAbsent(s: string, c: char)
    requires c !in s
    ensures RemoveChar(s, c) == s
  {
    if |s| > 0 {
      assert c !in s[1..];
      RemoveCharAbsent(s[1..], c);
      assert s == [s[0]] + s[1..];
    }
  }

  /** `p` occurs in `s` starting at position `i`. */
  predicate OccursAt(s: string, p: string, i: nat) {
    i + |p| <= |s| && s[i..i + |p|] == p
  }

  /** `s.find(p)`: the first position where `p` occurs, if any. */
  function Find(s: string, p: string, from: nat := 0): (r: Option<nat>)
    decreases |s| - from
    ensures r.Some? ==> from <= r.value && OccursAt(s, p, r.value)
    ensures r.Some? ==> forall j :: from <= j < r.value ==> !OccursAt(s, p, j)
    ensures r.None? ==> forall j :: from <= j ==> !OccursAt(s, p, j)
  {
    if from + |p| > |s| then None
    else if s[from..from + |p|] == p then Some(from)
    else Find(s, p, from + 1)
  }

  /** `name.split(".")[0]`. */
  function BeforeFirstDot(name: string): (r: string)
    ensures r == name || (Contains(name, ".") && OccursAt(name, ".", |r|))
    ensures r == name[..|r|]
  {
    match Find(name, ".")
    case Some(k) => name[..k]
    case None => name
  }

  /** Python's `p in s`. */
  predicate Contains(s: string, p: string) {
    Find(s, p).Some?
  }

  lemma ContainsIff(s: string, p: string)
    ensures Contains(s, p) <==> exists i: nat :: OccursAt(s, p, i)
  {
    if Contains(s, p) {
      assert OccursAt(s, p, Find(s, p).value);
    }
  }

  /** A pattern whose first character is absent does not occur. */
  lemma NotContainsWithoutFirst(s: string, p: string)
    requires |p| > 0 && p[0] !in s
    ensures !Contains(s, p)
  {
  }

  lemma ContainsMiddle(a: string, p: string, b: string)
    ensures Contains(a + p + b, p)
  {
    var s := a + p + b;
    assert s[|a|..|a| + |p|] == p;
    assert OccursAt(s, p, |a|);
    ContainsIff(s, p);
  }

  /** The first occurrence of a character is found after a prefix that lacks it. */
  lemma FindCharAfter(a: string, c: char, b: string)
    requires c !in a
    ensures Find(a + [c] + b, [c]) == Some(|a|)
  {
    var s := a + [c] + b;
    assert s[|a|..|a| + 1] == [c];
    assert OccursAt(s, [c], |a|);
    forall j: nat | j < |a| ensures !OccursAt(s, [c], j) {
      assert s[j] == a[j];
    }
  }

  /** A one-character pattern occurs exactly when the character does. */
  lemma ContainsChar(s: string, c: char)
    ensures Contains(s, [c]) <==> c in s
  {
    ContainsIff(s, [c]);
    if c in s {
      var i :| 0 <= i < |s| && s[i] == c;
      assert OccursAt(s, [c], i);
    }
    if Contains(s, [c]) {
      var i := Find(s, [c]).value;
      assert s[i..i + 1] == [c];
      assert s[i] == c;
    }
  }

  /** `s.rfind(p)`: the last position where `p` occurs, if any. */
  function FindLast(s: string, p: string): (r: Option<nat>)
    ensures r.Some? ==> OccursAt(s, p, r.value)
    ensures r.Some? ==> forall j: nat :: r.value < j ==> !OccursAt(s, p, j)
    ensures r.None? ==> forall j: nat :: !OccursAt(s, p, j)
  {
    FindLastBelow(s, p, |s| + 1)
  }

  function FindLastBelow(s: string, p: string, bound: nat): (r: Option<nat>)
    requires bound <= |s| + 1
    ensures r.Some? ==> r.value < bound && OccursAt(s, p, r.value)
    ensures r.Some? ==> forall j: nat :: r.value < j < bound ==> !OccursAt(s, p, j)
    ensures r.None? ==> forall j: nat :: j < bound ==> !OccursAt(s, p, j)
  {
    if bound == 0 then None
    else if OccursAt(s, p, bound - 1) then Some(bound - 1)
    else FindLastBelow(s, p, bound - 1)
  }

  /** The head of `s.rpartition(sep)`: everything before the last `sep`, or "" when absent. */
  function RPartitionHead(s: string, sep: string): (r: string)
    ensures Contains(s, sep) ==> OccursAt(s, sep, |r|) && r == s[..|r|]
    ensures Contains(s, sep) ==> forall j: nat :: |r| < j ==> !OccursAt(s, sep, j)
    ensures !Contains(s, sep) ==> r == ""
  {
    match FindLast(s, sep)
    case Some(i) => s[..i]
    case None => ""
  }

  /** Python's `s.replace(p, t)` for a non-empty `p`: non-overlapping, left to right. */
  function Replace(s: string, p: string, t: string): string
    requires |p| > 0
  {
    if |s| < |p| then s
    else if s[..|p|] == p then t + Replace(s[|p|..], p, t)
    else [s[0]] + Replace(s[1..], p, t)
  }

  lemma {:induction false} ReplaceAbsent(s: string, p: string, t: string)
    requires |p| > 0
    requires !Contains(s, p)
    ensures Replace(s, p, t) == s
  {
    if |s| >= |p| {
      assert !OccursAt(s, p, 0);
      forall j: nat ensures !OccursAt(s[1..], p, j) {
        assert !OccursAt(s, p, j + 1);
      }
      ContainsIff(s[1..], p);
      ReplaceAbsent(s[1..], p, t);
    }
  }

  lemma {:induction false} ReplaceWhole(p: string, t: string)
    requires |p| > 0
    ensures Replace(p, p, t) == t
  {
    assert p[..|p|] == p;
    assert p[|p|..] == [];
  }

  /** Python's `str(n)` for a natural number: decimal, no leading zeros. */
  function NatToDecimal(n: nat): (r: string)
    ensures |r| > 0
    ensures forall i :: 0 <= i < |r| ==> IsDigit(r[i])
  {
    if n < 10 then [DigitChar(n)] else NatToDecimal(n / 10) + [DigitChar(n % 10)]
  }

  /** Python's `str(i)` for any integer. */
  function IntToDecimal(i: int): (r: string)
    ensures |r| > 0
  {
    if i < 0 then "-" + NatToDecimal(-i) else NatToDecimal(i)
  }

  /**
   * A run of decimal digits in which single underscores may separate digits,
   * as Python's `int()` and `float()` accept it ("1_000").
   */
  predicate IsDigitRun(s: string) {
    && |s| > 0
    && IsDigit(s[0]) && IsDigit(s[|s| - 1])
    && (forall i :: 0 <= i < |s| ==> IsDigit(s[i]) || s[i] == '_')
    && (forall i :: 0 <= i < |s| - 1 ==> !(s[i] == '_' && s[i + 1] == '_'))
  }

  /** The value of a run of digits, underscores ignored. */
  function DigitRunValue(s: string): nat
    requires forall i :: 0 <= i < |s| ==> IsDigit(s[i]) || s[i] == '_'
  {
    if |s| == 0 then 0
    else if s[|s| - 1] == '_' then DigitRunValue(s[..|s| - 1])
    else 10 * DigitRunValue(s[..|s| - 1]) + DigitValue(s[|s| - 1])
  }

  /** `s` without a leading '+' or '-'. */
  function Unsigned(s: string): string {
    if |s| > 0 && (s[0] == '+' || s[0] == '-') then s[1..] else s
  }

  /**
   * Python's `int(s)` (base 10): surrounding white space, an optional sign
   * and a digit run; `None` stands for the `ValueError` it raises otherwise.
   */
  function ParseInt(s: string): (r: Option<int>)
    ensures r.Some? ==> IsDigitRun(Unsigned(Strip(s)))
    ensures r.None? ==> !IsDigitRun(Unsigned(Strip(s)))
  {
    var t := Strip(s);
    var u := Unsigned(t);
    if !IsDigitRun(u) then None
    else if t[0] == '-' then Some(-(DigitRunValue(u) as int))
    else Some(DigitRunValue(u))
  }

  lemma {:induction false} NatToDecimalValue(n: nat)
    ensures IsDigitRun(NatToDecimal(n))
    ensures DigitRunValue(NatToDecimal(n)) == n
  {
    var r := NatToDecimal(n);
    if n >= 10 {
      NatToDecimalValue(n / 10);
      assert r[..|r| - 1] == NatToDecimal(n / 10);
    }
  }

  /** `int(str(i)) == i`: the decimal rendering parses back to the same integer. */
  lemma ParseIntOfDecimal(i: int)
    ensures ParseInt(IntToDecimal(i)) == Some(i)
  {
    if i < 0 {
      ParseIntOfNegative(-i);
    } else {
      ParseIntOfNat(i);
    }
  }

  lemma ParseIntOfNat(n: nat)
    ensures ParseInt(NatToDecimal(n)) == Some(n)
  {
    var d := NatToDecimal(n);
    StripUnchanged(d);
    assert Strip(d) == d;
    assert IsDigit(d[0]);
    assert Unsigned(d) == d;
    NatToDecimalValue(n);
  }

  lemma ParseIntOfNegative(n: nat)
    requires n > 0
    ensures ParseInt("-" + NatToDecimal(n)) == Some(-(n as int))
  {
    ParseIntOfSigned('-', NatToDecimal(n));
    NatToDecimalValue(n);
  }

  lemma ParseIntOfSigned(minus: char, t: string)
    requires minus == '-' && |t| > 0 && IsDigit(t[0]) && IsDigit(t[|t| - 1])
    ensures ParseInt([minus] + t) == if IsDigitRun(t) then Some(-(DigitRunValue(t) as int)) else None
  {
    SignedPieces(minus, t);
  }

  lemma SignedPieces(minus: char, t: string)
    requires minus == '-' && |t| > 0 && IsDigit(t[|t| - 1])
    ensures Strip([minus] + t) == [minus] + t
    ensures Unsigned([minus] + t) == t
  {
    var d := [minus] + t;
    assert d[|d| - 1] == t[|t| - 1];
    StripUnchanged(d);
    assert d[1..] == t;
  }

  /** `strip` keeps every character that is not white space. */
  lemma StripKeeps(s: string, x: char)
    requires x in s && !IsSpace(x)
    ensures x in Strip(s)
  {
    var i :| 0 <= i < |s| && s[i] == x;
    var l := StripLeft(s);
    assert l[i - (|s| - |l|)] == x;
    var r := StripRight(l);
    assert r[i - (|s| - |l|)] == x;
  }

  /** A character that is neither white space, a sign, a digit nor '_' makes `int()` fail. */
  lemma ParseIntRejects(s: string, x: char)
    requires x in s && !IsSpace(x) && !IsDigit(x) && x != '_' && x != '+' && x != '-'
    ensures ParseInt(s).None?
  {
    StripKeeps(s, x);
    var t := Strip(s);
    var i :| 0 <= i < |t| && t[i] == x;
    assert Unsigned(t)[i - (|t| - |Unsigned(t)|)] == x;
  }

  /** Distinct numbers have distinct decimal renderings. */
  lemma NatToDecimalInjective(m: nat, n: nat)
    requires NatToDecimal(m) == NatToDecimal(n)
    ensures m == n
  {
    NatToDecimalValue(m);
    NatToDecimalValue(n);
  }

  function LowerAscii(s: string): (r: string)
    ensures |r| == |s|
  {
    if |s| == 0 then []
    else [if 'A' <= s[0] <= 'Z' then ((s[0] as int) + 32) as char else s[0]] + LowerAscii(s[1..])
  }

  /** The mantissa of a decimal float: `1`, `1.`, `1.5` or `.5` (digit runs). */
  predicate IsMantissa(m: string) {
    match Find(m, ".")
    case None => IsDigitRun(m)
    case Some(k) =>
      var a := m[..k];
      var b := m[k + 1..];
      (IsDigitRun(a) && (b == [] || IsDigitRun(b))) || (a == [] && IsDigitRun(b))
  }

  predicate IsExponent(x: string) {
    IsDigitRun(Unsigned(x))
  }

  /** The first position of an exponent marker `e` or `E`. */
  function FindExponentMarker(s: string): (r: Option<nat>)
    ensures r.Some? ==> r.value < |s| && (s[r.value] == 'e' || s[r.value] == 'E')
    ensures r.None? ==> forall i :: 0 <= i < |s| ==> s[i] != 'e' && s[i] != 'E'
  {
    if |s| == 0 then None
    else if s[0] == 'e' || s[0] == 'E' then Some(0)
    else match FindExponentMarker(s[1..])
      case Some(k) => Some(k + 1)
      case None => None
  }

  predicate IsDecimalFloat(u: string) {
    match FindExponentMarker(u)
    case None => IsMantissa(u)
    case Some(k) => IsMantissa(u[..k]) && IsExponent(u[k + 1..])
  }

  /**
   * The strings Python's `float(s)` accepts: after white space and an
   * optional sign, a decimal float or one of `inf`, `infinity`, `nan` in any
   * case.
   */
  predicate IsFloatLiteral(s: string) {
    var u := Unsigned(Strip(s));
    var l := LowerAscii(u);
    l == "inf" || l == "infinity" || l == "nan" || IsDecimalFloat(u)
  }

  lemma DigitRunHasNoDot(s: string)
    requires IsDigitRun(s)
    ensures Find(s, ".").None?
  {
  }

  /** A mantissa that starts with a letter is not one. */
  lemma LetterLeadNotMantissa(m: string)
    requires |m| > 0 && 'a' <= m[0] <= 'z'
    ensures !IsMantissa(m)
  {
    match Find(m, ".")
    case None =>
    case Some(k) =>
      assert m[k..k + 1] == ".";
      assert m[k] == '.';
      assert k > 0;
      assert m[..k][0] == m[0];
  }

  /**
   * A word of lower-case letters that starts with neither `e`, `i` nor `n`
   * is rejected by both `int()` and `float()`.
   */
  lemma WordNotNumber(s: string)
    requires |s| > 0 && 'a' <= s[0] <= 'z' && s[0] != 'e' && s[0] != 'i' && s[0] != 'n'
    requires !IsSpace(s[|s| - 1])
    ensures ParseInt(s).None? && !IsFloatLiteral(s)
  {
    StripUnchanged(s);
    assert Unsigned(s) == s;
    assert LowerAscii(s)[0] == s[0];
    match FindExponentMarker(s)
    case None => LetterLeadNotMantissa(s);
    case Some(k) =>
      assert k > 0;
      assert s[..k][0] == s[0];
      LetterLeadNotMantissa(s[..k]);
  }

  /** Every string `int()` accepts is also accepted by `float()`. */
  lemma IntLiteralIsFloatLiteral(s: string)
    requires ParseInt(s).Some?
    ensures IsFloatLiteral(s)
  {
    var u := Unsigned(Strip(s));
    DigitRunHasNoDot(u);
  }

  /** Code-point lexicographic order on strings, as Python's `<` on `str`. */
  predicate StrLess(a: string, b: string) {
    if |a| == 0 then |b| > 0
    else if |b| == 0 then false
    else if a[0] != b[0] then a[0] < b[0]
    else StrLess(a[1..], b[1..])
  }

  predicate StrLessEq(a: string, b: string) {
    a == b || StrLess(a, b)
  }

  lemma {:induction false} StrLessIrreflexive(a: string)
    ensures !StrLess(a, a)
  {
    if |a| > 0 {
      StrLessIrreflexive(a[1..]);
    }
  }

  lemma {:induction false} StrLessTransitive(a: string, b: string, c: string)
    requires StrLess(a, b) && StrLess(b, c)
    ensures StrLess(a, c)
  {
    if |a| > 0 && |b| > 0 && |c| > 0 && a[0] == b[0] && b[0] == c[0] {
      StrLessTransitive(a[1..], b[1..], c[1..]);
    }
  }

  lemma {:induction false} StrLessTotal(a: string, b: string)
    ensures a == b || StrLess(a, b) || StrLess(b, a)
  {
    if |a| > 0 && |b| > 0 && a[0] == b[0] {
      StrLessTotal(a[1..], b[1..]);
      if a[1..] == b[1..] {
        assert a == [a[0]] + a[1..];
        assert b == [b[0]] + b[1..];
      }
    }
  }

  lemma {:induction false} StrLessAsymmetric(a: string, b: string)
    requires StrLess(a, b)
    ensures !StrLess(b, a)
  {
    if |a| > 0 && |b| > 0 && a[0] == b[0] {
      StrLessAsymmetric(a[1..], b[1..]);
    }
  }
}
