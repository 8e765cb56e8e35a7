/**
  Bounded reads from an untrusted shader blob (src/rr_albedo_shader.h:35-65).

  Bytes and 32-bit words are bounded integers; a bit field of a word is written
  as a division and a remainder.  Every read is an index into a sequence, so the
  verifier itself shows that no member of these modules reads outside its blob.
*/
module ShaderBytes {

  type Byte = x: int | 0 <= x < 0x100

  type Word = x: int | 0 <= x < 0x1_0000_0000

  const MAX_WORD: Word := 0xFFFF_FFFF
  const HIGH_BIT := 0x8000_0000

  datatype Option<+T> = None | Some(value: T)

  /** The little-endian word at byte offset `p`. */
  function WordAt(data: seq<Byte>, p: nat): Word
    requires p + 4 <= |data|
  {
    var b0: int, b1: int, b2: int, b3: int := data[p], data[p + 1], data[p + 2], data[p + 3];
    b0 + 0x100 * b1 + 0x1_0000 * b2 + 0x100_0000 * b3
  }

  /** `count` bytes at `offset` fit in `extent`. */
  predicate Range(offset: nat, count: nat, extent: nat)
  {
    offset <= extent && count <= extent - offset
  }

  /** `count` records of `stride` bytes at `offset` fit in `extent`. */
  predicate Table(offset: nat, count: nat, stride: nat, extent: nat)
  {
    offset <= extent && stride != 0 && count <= (extent - offset) / stride
  }

  /** The division in `Table` means what its name says. */
  lemma TableFits(offset: nat, count: nat, stride: nat, extent: nat)
    ensures Table(offset, count, stride, extent) <==> stride != 0 && offset + count * stride <= extent
  {
    if stride != 0 && offset <= extent {
      var room := extent - offset;
      var q, r := room / stride, room % stride;
      assert room == q * stride + r;
      if count <= q {
        assert count * stride <= q * stride;
      } else {
        assert count * stride >= (q + 1) * stride;
      }
    } else if stride != 0 {
      assert count * stride >= 0;
    }
  }

  /** A record of a table that fits lies inside the extent. */
  lemma RecordFits(offset: nat, count: nat, stride: nat, extent: nat, i: nat)
    requires Table(offset, count, stride, extent) && i < count
    ensures offset + i * stride + stride <= offset + count * stride <= extent
  {
    TableFits(offset, count, stride, extent);
    assert (i + 1) * stride <= count * stride;
  }

  function Lower(c: Byte): Byte
  {
    if 'A' as int <= c <= 'Z' as int then c + 32 else c
  }

  predicate Printable(c: Byte) { 32 <= c <= 126 }

  /** A terminated, nonempty, printable string of fewer than 256 bytes starts at `offset` and has length `n`. */
  ghost predicate StringOfLength(data: seq<Byte>, offset: nat, n: nat)
  {
    && 0 < n < 256
    && offset + n < |data|
    && data[offset + n] == 0
    && forall k :: offset <= k < offset + n ==> Printable(data[k])
  }

  ghost predicate HasString(data: seq<Byte>, offset: nat)
  {
    exists n :: StringOfLength(data, offset, n)
  }

  /** The string at `offset` is `expected`, letter case aside. */
  ghost predicate HasStringNamed(data: seq<Byte>, offset: nat, expected: seq<Byte>)
  {
    && StringOfLength(data, offset, |expected|)
    && forall i :: 0 <= i < |expected| ==> Lower(data[offset + i]) == Lower(expected[i])
  }

  ghost predicate Meets(data: seq<Byte>, offset: nat, expected: Option<seq<Byte>>)
  {
    match expected
    case None => HasString(data, offset)
    case Some(e) => HasStringNamed(data, offset, e)
  }

  /** The byte of a C string literal at `i`, its terminator included. */
  function Literal(s: seq<Byte>, i: nat): Byte
    requires i <= |s|
  {
    if i < |s| then s[i] else 0
  }

  method StringAt(data: seq<Byte>, offset: nat, expected: Option<seq<Byte>>) returns (ok: bool)
    requires expected.Some? ==> 0 !in expected.value
    ensures ok <==> Meets(data, offset, expected)
  {
    if offset >= |data| { return false; }
    var available := if |data| - offset < 256 then |data| - offset else 256;
    var i := 0;
    while i < available
      invariant 0 <= i <= available
      invariant expected.Some? ==> i <= |expected.value|
      invariant forall k :: offset <= k < offset + i ==> Printable(data[k])
      invariant expected.Some? ==> forall k :: 0 <= k < i ==> Lower(data[offset + k]) == Lower(expected.value[k])
    {
      var c := data[offset + i];
      if expected.Some? {
        if Lower(c) != Lower(Literal(expected.value, i)) {
          return false;
        }
      }
      if c == 0 {
        if i != 0 { assert StringOfLength(data, offset, i); }
        return i != 0;
      }
      if !Printable(c) { return false; }
      i := i + 1;
    }
    return false;
  }
}
