/**
 * Bytes and the fixed-width integer encodings of the preset container:
 * `int.from_bytes` in either byte order, `struct.pack` of the unsigned
 * "I" and signed "i"/"q" formats on a little-endian host, and ASCII text.
 */
module Bytes {
  import opened Wrappers

  newtype byte = x: int | 0 <= x < 256

  datatype Endian = Little | Big

  function Pow256(w: nat): (r: nat)
    ensures r >= 1
  {
    if w == 0 then 1 else 256 * Pow256(w - 1)
  }

  lemma {:induction false} Pow256Monotone(v: nat, w: nat)
    requires v <= w
    ensures Pow256(v) <= Pow256(w)
    decreases w
  {
    if v < w {
      Pow256Monotone(v, w - 1);
    }
  }

  /** The `w` low-order bytes of `n`, least significant first. */
  function LittleEndian(n: nat, w: nat): (r: seq<byte>)
    ensures |r| == w
  {
    if w == 0 then [] else [(n % 256) as byte] + LittleEndian(n / 256, w - 1)
  }

  /** `int.from_bytes(bs, "little")`. */
  function FromLittleEndian(bs: seq<byte>): (n: nat)
    ensures n < Pow256(|bs|)
  {
    if |bs| == 0 then 0 else bs[0] as nat + 256 * FromLittleEndian(bs[1..])
  }

  function Reverse(bs: seq<byte>): (r: seq<byte>)
    ensures |r| == |bs|
    ensures forall i :: 0 <= i < |bs| ==> r[i] == bs[|bs| - 1 - i]
  {
    if |bs| == 0 then [] else Reverse(bs[1..]) + [bs[0]]
  }

  /** `int.from_bytes(bs, endian)`: always unsigned, of any length (the empty sequence gives 0). */
  function FromBytes(bs: seq<byte>, endian: Endian): (n: nat)
    ensures n < Pow256(|bs|)
  {
    match endian
    case Little => FromLittleEndian(bs)
    case Big => FromLittleEndian(Reverse(bs))
  }

  lemma {:induction false} LittleEndianRoundTrip(n: nat, w: nat)
    requires n < Pow256(w)
    ensures FromLittleEndian(LittleEndian(n, w)) == n
  {
    if w > 0 {
      LittleEndianRoundTrip(n / 256, w - 1);
      assert LittleEndian(n, w)[1..] == LittleEndian(n / 256, w - 1);
    }
  }

  lemma {:induction false} FromLittleEndianInjective(a: seq<byte>, b: seq<byte>)
    requires |a| == |b| && FromLittleEndian(a) == FromLittleEndian(b)
    ensures a == b
  {
    if |a| > 0 {
      assert a[0] as nat == FromLittleEndian(a) % 256;
      assert b[0] as nat == FromLittleEndian(b) % 256;
      FromLittleEndianInjective(a[1..], b[1..]);
      assert a == [a[0]] + a[1..];
      assert b == [b[0]] + b[1..];
    }
  }

  /** Re-encoding a decoded little-endian field reproduces its bytes. */
  lemma LittleEndianOfDecoded(bs: seq<byte>)
    ensures LittleEndian(FromLittleEndian(bs), |bs|) == bs
  {
    var n := FromLittleEndian(bs);
    LittleEndianRoundTrip(n, |bs|);
    FromLittleEndianInjective(LittleEndian(n, |bs|), bs);
  }

  const TwoTo32: nat := 0x1_0000_0000
  const TwoTo63: nat := 0x8000_0000_0000_0000

  lemma Pow256Values()
    ensures Pow256(4) == TwoTo32
    ensures Pow256(8) == 0x1_0000_0000_0000_0000
  {
  }

  /** `struct.pack("i", n)` for a non-negative `n`: four bytes, or an error above 2^31 - 1. */
  function PackInt32(n: nat): (r: Option<seq<byte>>)
    ensures r.Some? <==> n < 0x8000_0000
    ensures r.Some? ==> |r.value| == 4 && FromLittleEndian(r.value) == n
  {
    Pow256Values();
    if n < 0x8000_0000 then
      LittleEndianRoundTrip(n, 4);
      Some(LittleEndian(n, 4))
    else None
  }

  /** `struct.pack("q", n)` for a non-negative `n`: eight bytes, or an error from 2^63 on. */
  function PackInt64(n: nat): (r: Option<seq<byte>>)
    ensures r.Some? <==> n < TwoTo63
    ensures r.Some? ==> |r.value| == 8 && FromLittleEndian(r.value) == n
  {
    Pow256Values();
    if n < TwoTo63 then
      LittleEndianRoundTrip(n, 8);
      Some(LittleEndian(n, 8))
    else None
  }

  predicate IsAsciiChar(c: char) { c as int < 128 }

  predicate IsAscii(s: string) {
    forall i :: 0 <= i < |s| ==> IsAsciiChar(s[i])
  }

  /** `bs.decode("ascii")`: `None` stands for the `UnicodeDecodeError` on a byte of 128 or more. */
  function AsciiDecode(bs: seq<byte>): (r: Option<string>)
    ensures r.Some? <==> forall i :: 0 <= i < |bs| ==> bs[i] < 128
    ensures r.Some? ==> |r.value| == |bs| && IsAscii(r.value)
    ensures r.Some? ==> forall i :: 0 <= i < |bs| ==> r.value[i] as int == bs[i] as int
  {
    if |bs| == 0 then Some([])
    else if bs[0] >= 128 then None
    else match AsciiDecode(bs[1..])
      case None => None
      case Some(rest) => Some([(bs[0] as int) as char] + rest)
  }

  /** `s.encode("ascii")`: `None` stands for the `UnicodeEncodeError` on a non-ASCII character. */
  function AsciiEncode(s: string): (r: Option<seq<byte>>)
    ensures r.Some? <==> IsAscii(s)
    ensures r.Some? ==> |r.value| == |s|
    ensures r.Some? ==> forall i :: 0 <= i < |s| ==> r.value[i] as int == s[i] as int
  {
    if |s| == 0 then Some([])
    else if !IsAsciiChar(s[0]) then None
    else match AsciiEncode(s[1..])
      case None => None
      case Some(rest) => Some([(s[0] as int) as byte] + rest)
  }

  /** ASCII text decodes back to the string it was encoded from. */
  lemma {:induction false} AsciiRoundTrip(s: string)
    requires IsAscii(s)
    ensures AsciiDecode(AsciiEncode(s).value) == Some(s)
  {
    if |s| > 0 {
      AsciiRoundTrip(s[1..]);
      var bs := AsciiEncode(s).value;
      assert bs == [(s[0] as int) as byte] + AsciiEncode(s[1..]).value;
      assert bs[1..] == AsciiEncode(s[1..]).value;
      assert ((bs[0] as int) as char) == s[0];
      assert s == [s[0]] + s[1..];
    }
  }
}
