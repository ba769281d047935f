/**
 * The pieces of the VST 3 preset container shared by the reader
 * (vstpresettojson.py) and the writer (jsontovstpreset.py).
 *
 * A file is a 48-byte header ("VST3", a 4-byte version, a 32-byte class id,
 * an 8-byte offset of the chunk list), the chunk data, and a chunk list
 * ("List", a 4-byte entry count, then per entry a 4-byte id, an 8-byte
 * offset and an 8-byte size).  Offsets count bytes from the start of the file.
 */
module PresetFormat {
  import opened Bytes
  import opened OrderedDict
  import opened ParameterSchema

  /** An IEEE 754 double as its eight bytes; the model never looks inside. */
  type Float64 = b: seq<byte> | |b| == 8 witness [0, 0, 0, 0, 0, 0, 0, 0]

  /** A parameter value as JSON carries it: an integer or a float. */
  datatype Value = VInt(n: int) | VDouble(bits: Float64)

  /** One preset of `*.preset.json`: its name and its values by parameter name. */
  datatype Preset = Preset(name: string, parameter: Dict<string, Value>)

  const HeaderId: string := "VST3"
  const ListId: string := "List"
  const CompId: string := "Comp"
  const InfoId: string := "Info"

  /** Bytes before the component data: id, version, class id, chunk-list offset. */
  const HeaderSize: nat := 48

  /** `file.read(n)` at position `pos`: as many bytes as remain, none past the end. */
  function Take(file: seq<byte>, pos: nat, n: nat): (r: seq<byte>)
    ensures |r| <= n
    ensures pos + n <= |file| ==> r == file[pos..pos + n]
    ensures |r| == n ==> pos + n <= |file| || n == 0
  {
    if pos >= |file| then []
    else if pos + n <= |file| then file[pos..pos + n]
    else file[pos..]
  }

  /**
   * Two positions no read can tell apart: the same position, or both at or
   * past the end.  A short read leaves the file at such a position instead
   * of the one a full read would have reached.
   */
  predicate SamePlace(file: seq<byte>, a: nat, b: nat) {
    a == b || (|file| <= a && |file| <= b)
  }

  lemma TakeSamePlace(file: seq<byte>, a: nat, b: nat, n: nat)
    requires SamePlace(file, a, b)
    ensures Take(file, a, n) == Take(file, b, n)
  {
  }

  /** Reading a piece back from where it was written. */
  lemma TakePiece(before: seq<byte>, piece: seq<byte>, after: seq<byte>)
    ensures Take(before + piece + after, |before|, |piece|) == piece
  {
    assert (before + piece + after)[|before|..|before| + |piece|] == piece;
  }

  /** `comp_chunk_size`: the bytes the schema's values take, four per "I" and eight per "d". */
  function ChunkSize(items: seq<(string, ParamDef)>): nat {
    if |items| == 0 then 0 else ByteSize(items[0].1.typeCode) + ChunkSize(items[1..])
  }

  lemma {:induction false} ChunkSizeAppend(a: seq<(string, ParamDef)>, b: seq<(string, ParamDef)>)
    ensures ChunkSize(a + b) == ChunkSize(a) + ChunkSize(b)
  {
    if |a| == 0 {
      assert a + b == b;
    } else {
      assert (a + b)[0] == a[0];
      assert (a + b)[1..] == a[1..] + b;
      ChunkSizeAppend(a[1..], b);
    }
  }

  // ---------------------------------------------------------------------
  // A file as the fields written one after another

  /** The bytes of `fi.write(p)` for each `p` of `ps` in turn. */
  function Concat(ps: seq<seq<byte>>): (r: seq<byte>)
    ensures |r| == Offset(ps, |ps|)
  {
    Written(ps, |ps|)
  }

  /** The bytes of the first `i` fields. */
  function Written(ps: seq<seq<byte>>, i: nat): (r: seq<byte>)
    requires i <= |ps|
    ensures |r| == Offset(ps, i)
  {
    if i == 0 then [] else Written(ps, i - 1) + ps[i - 1]
  }

  /** Where field `i` starts: the lengths of the fields before it. */
  function Offset(ps: seq<seq<byte>>, i: nat): nat
    requires i <= |ps|
  {
    if i == 0 then 0 else Offset(ps, i - 1) + |ps[i - 1]|
  }

  /** What is written later leaves what was written earlier in place. */
  lemma {:induction false} WrittenPrefix(ps: seq<seq<byte>>, i: nat, j: nat)
    requires i <= j <= |ps|
    ensures Offset(ps, i) <= Offset(ps, j)
    ensures Written(ps, j)[..Offset(ps, i)] == Written(ps, i)
    decreases j
  {
    if i < j {
      WrittenPrefix(ps, i, j - 1);
      var w := Written(ps, j - 1);
      assert Written(ps, j) == w + ps[j - 1];
      assert (w + ps[j - 1])[..Offset(ps, i)] == w[..Offset(ps, i)];
    }
  }

  /** Reading field `i`'s length at its offset gives the field back. */
  lemma TakeField(ps: seq<seq<byte>>, i: nat)
    requires i < |ps|
    ensures Offset(ps, i) + |ps[i]| <= |Concat(ps)|
    ensures Take(Concat(ps), Offset(ps, i), |ps[i]|) == ps[i]
  {
    WrittenPrefix(ps, i + 1, |ps|);
    var w := Written(ps, i + 1);
    assert w[Offset(ps, i)..] == ps[i];
    assert Concat(ps)[Offset(ps, i)..Offset(ps, i) + |ps[i]|] == w[Offset(ps, i)..];
  }
}
