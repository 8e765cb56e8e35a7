/**
  CRC-32 (src/rr_clamp_strength.h:36-40 and, as a second copy,
  diagnostic_addon/ControlFG-RenoDXClampRef.cpp:27-36).

  A word is its 32 bits, least significant first, which is also the order of the
  coefficients of the polynomial it stands for, highest first.  The module
  relates the loop to three other readings of it: the table-driven form in
  section 8 of RFC 1952, the remainder of long division over GF(2), and a
  bijection that tells apart messages differing within 32 consecutive bits.
*/
module Crc32 {

  type Word = s: seq<bool> | |s| == 32 witness Zeros(32)

  type Byte = s: seq<bool> | |s| == 8 witness Zeros(8)

  /** Bit `k` of a number. */
  predicate Bit(n: nat, k: nat)
    decreases k
  {
    if k == 0 then n % 2 == 1 else Bit(n / 2, k - 1)
  }

  /** The constant 0xedb88320, bit by bit. */
  function Polynomial(): Word { seq(32, k requires 0 <= k < 32 => Bit(0xEDB8_8320, k)) }

  function Zeros(n: nat): (s: seq<bool>)
    ensures |s| == n && forall i :: 0 <= i < n ==> !s[i]
  {
    seq(n, i => false)
  }

  function Ones(): (w: Word)
    ensures forall i :: 0 <= i < 32 ==> w[i]
  {
    seq(32, i => true)
  }

  /** `x` added, without carry, into the front of `p`. */
  function Mix(p: seq<bool>, x: seq<bool>): (r: seq<bool>)
    requires |x| <= |p|
    ensures |r| == |p|
    ensures forall i :: 0 <= i < |p| ==> r[i] == if i < |x| then p[i] != x[i] else p[i]
  {
    seq(|p|, i requires 0 <= i < |p| => if i < |x| then p[i] != x[i] else p[i])
  }

  // --- The register ---

  /** `0xedb88320 & (0 - b)` */
  function Feedback(b: bool): Word
  {
    if b then Polynomial() else Zeros(32)
  }

  /** `(c >> 1) ^ (0xedb88320 & (0 - (c & 1)))` */
  function Shift(c: Word): Word
  {
    Mix(c[1..] + [false], Feedback(c[0]))
  }

  function Shifts(c: Word, n: nat): Word
    decreases n
  {
    if n == 0 then c else Shifts(Shift(c), n - 1)
  }

  function Absorb(c: Word, b: Byte): Word { Shifts(Mix(c, b), 8) }

  function Register(c: Word, data: seq<Byte>): Word
    decreases |data|
  {
    if data == [] then c else Register(Absorb(c, data[0]), data[1..])
  }

  function Checksum(data: seq<Byte>): Word { Mix(Register(Ones(), data), Ones()) }

  lemma {:induction false} RegisterAppend(c: Word, a: seq<Byte>, b: seq<Byte>)
    ensures Register(c, a + b) == Register(Register(c, a), b)
    decreases |a|
  {
    if a == [] {
      assert a + b == b;
    } else {
      assert (a + b)[1..] == a[1..] + b;
      RegisterAppend(Absorb(c, a[0]), a[1..], b);
    }
  }

  lemma {:induction false} ShiftLast(c: Word, n: nat)
    ensures Shifts(c, n + 1) == Shift(Shifts(c, n))
    decreases n
  {
    if n > 0 { ShiftLast(Shift(c), n - 1); }
  }

  /** The nested loops of both copies. */
  method Crc(data: array<Byte>) returns (crc: Word)
    ensures crc == Checksum(data[..])
  {
    crc := Ones();
    var i := 0;
    while i < data.Length
      invariant 0 <= i <= data.Length && crc == Register(Ones(), data[..i])
    {
      crc := Mix(crc, data[i]);
      ghost var start := crc;
      var j := 0;
      while j < 8
        invariant 0 <= j <= 8 && crc == Shifts(start, j)
      {
        ShiftLast(start, j);
        crc := Mix(crc[1..] + [false], Feedback(crc[0]));
        j := j + 1;
      }
      assert data[..i + 1] == data[..i] + [data[i]];
      RegisterAppend(Ones(), data[..i], [data[i]]);
      assert Register(Register(Ones(), data[..i]), [data[i]]) == Absorb(Register(Ones(), data[..i]), data[i]);
      i := i + 1;
    }
    assert data[..] == data[..data.Length];
    crc := Mix(crc, Ones());
  }

  // --- Bijectivity ---

  lemma TopBit()
    ensures Polynomial()[31]
  {
    GeneratorPowers(31);
  }

  lemma ByteBits(n: nat, k: nat)
    ensures Bit(n, k + 8) == Bit(n / 0x100, k)
  {
    HigherNibble(n, k + 4);
    HigherNibble(n / 16, k);
  }

  lemma LowBits(n: nat, k: nat)
    requires k < 8
    ensures Bit(n, k) <==> (if k < 4 then NibbleBit(n, k) else NibbleBit(n / 16, k - 4))
  {
    if k < 4 {
      LowNibble(n, k);
    } else {
      HigherNibble(n, k - 4);
      LowNibble(n / 16, k - 4);
    }
  }

  predicate NibbleBit(n: nat, k: nat)
    requires k < 4
  {
    (if k == 0 then n else if k == 1 then n / 2 else if k == 2 then n / 4 else n / 8) % 2 == 1
  }

  lemma HigherNibble(n: nat, k: nat)
    ensures Bit(n, k + 4) == Bit(n / 16, k)
  {
    assert Bit(n, k + 4) == Bit(n / 2, k + 3) == Bit(n / 2 / 2, k + 2);
    assert Bit(n / 4, k + 2) == Bit(n / 4 / 2, k + 1) == Bit(n / 4 / 2 / 2, k);
  }

  lemma LowNibble(n: nat, k: nat)
    requires k < 4
    ensures Bit(n, k) <==> NibbleBit(n, k)
  {
    if k >= 2 {
      assert Bit(n, k) == Bit(n / 2, k - 1) == Bit(n / 2 / 2, k - 2);
    }
  }

  /** The generator the standard prescribes: these powers of x, besides x^32. */
  lemma GeneratorPowers(k: nat)
    requires k < 32
    ensures Polynomial()[k] <==> 31 - k in {26, 23, 22, 16, 12, 11, 10, 8, 7, 5, 4, 2, 1, 0}
  {
    if k >= 8 {
      ByteBits(0xEDB8_8320, k - 8);
      if k >= 16 {
        ByteBits(0xED_B883, k - 16);
        if k >= 24 {
          ByteBits(0xEDB8, k - 24);
          LowBits(0xED, k - 24);
        } else {
          LowBits(0xEDB8, k - 16);
        }
      } else {
        LowBits(0xED_B883, k - 8);
      }
    } else {
      LowBits(0xEDB8_8320, k);
    }
  }

  lemma ShiftInjective(a: Word, b: Word)
    requires Shift(a) == Shift(b)
    ensures a == b
  {
    TopBit();
    assert Shift(a)[31] == a[0] && Shift(b)[31] == b[0];
    forall i | 0 <= i < 32 ensures a[i] == b[i] {
      if i > 0 { assert Shift(a)[i - 1] == Shift(b)[i - 1]; }
    }
  }

  lemma {:induction false} ShiftsInjective(a: Word, b: Word, n: nat)
    requires Shifts(a, n) == Shifts(b, n)
    ensures a == b
    decreases n
  {
    if n > 0 {
      ShiftsInjective(Shift(a), Shift(b), n - 1);
      ShiftInjective(a, b);
    }
  }

  lemma MixInjective(a: seq<bool>, b: seq<bool>, x: seq<bool>)
    requires |x| <= |a| == |b| && Mix(a, x) == Mix(b, x)
    ensures a == b
  {
    forall i | 0 <= i < |a| ensures a[i] == b[i] {
      assert Mix(a, x)[i] == Mix(b, x)[i];
    }
  }

  lemma MixedInInjective(p: seq<bool>, x: seq<bool>, y: seq<bool>)
    requires |x| == |y| <= |p| && Mix(p, x) == Mix(p, y)
    ensures x == y
  {
    forall i | 0 <= i < |x| ensures x[i] == y[i] {
      assert Mix(p, x)[i] == Mix(p, y)[i];
    }
  }

  // --- One bit at a time ---

  function FeedBit(c: Word, b: bool): Word { Shift(Mix(c, [b])) }

  function Feed(c: Word, bits: seq<bool>): Word
    decreases |bits|
  {
    if bits == [] then c else Feed(FeedBit(c, bits[0]), bits[1..])
  }

  /** The bits of a message, each byte least significant first. */
  function MessageBits(data: seq<Byte>): (bits: seq<bool>)
    ensures |bits| == 8 * |data|
  {
    if data == [] then [] else data[0] + MessageBits(data[1..])
  }

  lemma ShiftOfMix(c: Word, x: seq<bool>)
    requires 0 < |x| <= 32
    ensures Shift(Mix(c, x)) == Mix(FeedBit(c, x[0]), x[1..])
  {
    var m, f := Mix(c, x), Mix(c, [x[0]]);
    assert m[0] == f[0];
    forall i | 0 <= i < 32 ensures Shift(m)[i] == Mix(Shift(f), x[1..])[i] {
      if i < 31 {
        assert m[i + 1] == if i < |x[1..]| then f[i + 1] != x[1..][i] else f[i + 1];
      }
    }
  }

  /** Up to 32 bits may be mixed in at once and shifted through afterwards. */
  lemma {:induction false} FeedOfMix(c: Word, x: seq<bool>)
    requires |x| <= 32
    ensures Shifts(Mix(c, x), |x|) == Feed(c, x)
    decreases |x|
  {
    if x == [] {
      assert Mix(c, x) == c;
    } else {
      ShiftOfMix(c, x);
      FeedOfMix(FeedBit(c, x[0]), x[1..]);
    }
  }

  lemma {:induction false} FeedAppend(c: Word, a: seq<bool>, b: seq<bool>)
    ensures Feed(c, a + b) == Feed(Feed(c, a), b)
    decreases |a|
  {
    if a == [] {
      assert a + b == b;
    } else {
      assert (a + b)[1..] == a[1..] + b;
      FeedAppend(FeedBit(c, a[0]), a[1..], b);
    }
  }

  /** The byte loop feeds the bits of the message in order. */
  lemma {:induction false} RegisterFeeds(c: Word, data: seq<Byte>)
    ensures Register(c, data) == Feed(c, MessageBits(data))
    decreases |data|
  {
    if data != [] {
      FeedOfMix(c, data[0]);
      FeedAppend(c, data[0], MessageBits(data[1..]));
      RegisterFeeds(Absorb(c, data[0]), data[1..]);
    }
  }

  /** For a fixed message the register is a one-to-one function of its start. */
  lemma {:induction false} FeedInjective(a: Word, b: Word, bits: seq<bool>)
    requires Feed(a, bits) == Feed(b, bits)
    ensures a == b
    decreases |bits|
  {
    if bits != [] {
      FeedInjective(FeedBit(a, bits[0]), FeedBit(b, bits[0]), bits[1..]);
      ShiftInjective(Mix(a, [bits[0]]), Mix(b, [bits[0]]));
      MixInjective(a, b, [bits[0]]);
    }
  }

  /** For a fixed start it is a one-to-one function of any 32 bits. */
  lemma ShortFeedInjective(c: Word, x: seq<bool>, y: seq<bool>)
    requires |x| == |y| <= 32 && Feed(c, x) == Feed(c, y)
    ensures x == y
  {
    FeedOfMix(c, x);
    FeedOfMix(c, y);
    ShiftsInjective(Mix(c, x), Mix(c, y), |x|);
    MixedInInjective(c, x, y);
  }

  /** Messages of one length whose bits differ only within 32 consecutive positions have different checksums. */
  lemma BurstDetected(m: seq<Byte>, n: seq<Byte>, from: nat, to: nat)
    requires |m| == |n| && m != n && from <= to <= from + 32 && to <= 8 * |m|
    requires forall i :: 0 <= i < 8 * |m| && !(from <= i < to) ==> MessageBits(m)[i] == MessageBits(n)[i]
    ensures Checksum(m) != Checksum(n)
  {
    RegisterFeeds(Ones(), m);
    RegisterFeeds(Ones(), n);
    if Checksum(m) == Checksum(n) {
      MixInjective(Register(Ones(), m), Register(Ones(), n), Ones());
      WindowInjective(MessageBits(m), MessageBits(n), from, to);
      MessageBitsInjective(m, n);
    }
  }

  lemma WindowInjective(a: seq<bool>, b: seq<bool>, from: nat, to: nat)
    requires |a| == |b| && from <= to <= from + 32 && to <= |a|
    requires forall i :: 0 <= i < |a| && !(from <= i < to) ==> a[i] == b[i]
    requires Feed(Ones(), a) == Feed(Ones(), b)
    ensures a == b
  {
    assert a[..from] == b[..from] && a[to..] == b[to..];
    SplitFeed(a, from, to);
    SplitFeed(b, from, to);
    MiddleInjective(Feed(Ones(), a[..from]), a[from..to], b[from..to], a[to..]);
    forall i | from <= i < to ensures a[i] == b[i] {
      assert a[from..to][i - from] == b[from..to][i - from];
    }
  }

  lemma MiddleInjective(c: Word, x: seq<bool>, y: seq<bool>, suffix: seq<bool>)
    requires |x| == |y| <= 32 && Feed(Feed(c, x), suffix) == Feed(Feed(c, y), suffix)
    ensures x == y
  {
    FeedInjective(Feed(c, x), Feed(c, y), suffix);
    ShortFeedInjective(c, x, y);
  }

  lemma SplitFeed(a: seq<bool>, from: nat, to: nat)
    requires from <= to <= |a|
    ensures Feed(Ones(), a) == Feed(Feed(Feed(Ones(), a[..from]), a[from..to]), a[to..])
  {
    assert a == a[..from] + (a[from..to] + a[to..]);
    FeedAppend(Ones(), a[..from], a[from..to] + a[to..]);
    FeedAppend(Feed(Ones(), a[..from]), a[from..to], a[to..]);
  }

  lemma {:induction false} MessageBitsInjective(m: seq<Byte>, n: seq<Byte>)
    requires |m| == |n| && MessageBits(m) == MessageBits(n)
    ensures m == n
    decreases |m|
  {
    if m != [] {
      assert MessageBits(m)[..8] == m[0] && MessageBits(n)[..8] == n[0];
      assert MessageBits(m)[8..] == MessageBits(m[1..]) && MessageBits(n)[8..] == MessageBits(n[1..]);
      MessageBitsInjective(m[1..], n[1..]);
      assert m == [m[0]] + m[1..] && n == [n[0]] + n[1..];
    }
  }

  /** In particular, buffers that differ only within four consecutive bytes. */
  lemma FourByteWindowDetected(prefix: seq<Byte>, u: seq<Byte>, v: seq<Byte>, suffix: seq<Byte>)
    requires |u| == |v| <= 4 && u != v
    ensures Checksum(prefix + u + suffix) != Checksum(prefix + v + suffix)
  {
    var m, n := prefix + u + suffix, prefix + v + suffix;
    BitsAppend(prefix + u, suffix);
    BitsAppend(prefix, u);
    BitsAppend(prefix + v, suffix);
    BitsAppend(prefix, v);
    assert m[|prefix|..|prefix| + |u|] == u && n[|prefix|..|prefix| + |u|] == v;
    BurstDetected(m, n, 8 * |prefix|, 8 * |prefix| + 8 * |u|);
  }

  lemma {:induction false} BitsAppend(a: seq<Byte>, b: seq<Byte>)
    ensures MessageBits(a + b) == MessageBits(a) + MessageBits(b)
    decreases |a|
  {
    if a == [] {
      assert a + b == b;
    } else {
      assert (a + b)[1..] == a[1..] + b;
      BitsAppend(a[1..], b);
    }
  }

  // --- Division of polynomials over GF(2), coefficients highest first ---

  /** One step of long division by the generator, x^32 plus `Polynomial()`: clears the leading coefficient. */
  function Reduce(p: seq<bool>): (r: seq<bool>)
    requires |p| > 32
    ensures |r| == |p| - 1
  {
    if p[0] then Mix(p[1..], Polynomial()) else p[1..]
  }

  /** The remainder of schoolbook long division by the generator. */
  function Remainder(p: seq<bool>): Word
    requires |p| >= 32
    decreases |p|
  {
    if |p| == 32 then p else Remainder(Reduce(p))
  }

  lemma ReduceFed(c: Word, b: bool, rest: seq<bool>)
    ensures Reduce(Mix([b] + rest + Zeros(32), c)) == Mix(rest + Zeros(32), FeedBit(c, b))
  {
    var p, q, f := Mix([b] + rest + Zeros(32), c), rest + Zeros(32), Mix(c, [b]);
    assert p[0] == f[0];
    forall i | 0 <= i < |q| ensures Reduce(p)[i] == Mix(q, Shift(f))[i] {
      assert ([b] + rest + Zeros(32))[i + 1] == q[i];
    }
  }

  /** The register is the remainder of the message times x^32, the start mixed into its front. */
  lemma {:induction false} FeedIsRemainder(c: Word, bits: seq<bool>)
    ensures Feed(c, bits) == Remainder(Mix(bits + Zeros(32), c))
    decreases |bits|
  {
    if bits == [] {
      assert Mix(bits + Zeros(32), c) == c;
    } else {
      assert bits == [bits[0]] + bits[1..];
      ReduceFed(c, bits[0], bits[1..]);
      FeedIsRemainder(FeedBit(c, bits[0]), bits[1..]);
    }
  }

  /**
    The checksum is the complement of the remainder of the message, times x^32,
    with its first 32 coefficients complemented, as the standard prescribes.
  */
  lemma ChecksumIsRemainder(data: seq<Byte>)
    ensures Checksum(data) == Mix(Remainder(Mix(MessageBits(data) + Zeros(32), Ones())), Ones())
  {
    RegisterFeeds(Ones(), data);
    FeedIsRemainder(Ones(), MessageBits(data));
  }

  /** The polynomial `q` times the generator, plus `r`. */
  function Compose(q: seq<bool>, r: Word): (p: seq<bool>)
    ensures |p| == |q| + 32
  {
    if q == [] then r
    else
      var rest := Compose(q[1..], r);
      [q[0]] + (if q[0] then Mix(rest, Polynomial()) else rest)
  }

  lemma MixTwice(p: seq<bool>, x: seq<bool>)
    requires |x| <= |p|
    ensures Mix(Mix(p, x), x) == p
  {
  }

  lemma ReduceCompose(q: seq<bool>, r: Word)
    requires q != []
    ensures Reduce(Compose(q, r)) == Compose(q[1..], r)
  {
    var rest := Compose(q[1..], r);
    var p := Compose(q, r);
    assert p[1..] == if q[0] then Mix(rest, Polynomial()) else rest;
    MixTwice(rest, Polynomial());
  }

  /** `Remainder` is the remainder of division: every polynomial is a multiple of the generator plus it ... */
  lemma {:induction false} DivisionLaw(p: seq<bool>) returns (q: seq<bool>)
    requires |p| >= 32
    ensures |q| == |p| - 32 && Compose(q, Remainder(p)) == p
    decreases |p|
  {
    if |p| == 32 {
      q := [];
    } else {
      var rest := DivisionLaw(Reduce(p));
      q := [p[0]] + rest;
      assert q[1..] == rest;
      if p[0] { MixTwice(p[1..], Polynomial()); }
      assert p == [p[0]] + p[1..];
    }
  }

  /** ... and no other word of 32 coefficients. */
  lemma {:induction false} RemainderUnique(q: seq<bool>, r: Word)
    ensures Remainder(Compose(q, r)) == r
    decreases |q|
  {
    if q != [] {
      ReduceCompose(q, r);
      RemainderUnique(q[1..], r);
    }
  }

  // --- The table-driven form of RFC 1952, section 8 ---

  /** Entry for a byte: eight steps from it. */
  function TableEntry(b: Byte): Word { Shifts(b + Zeros(24), 8) }

  /** `table[(c ^ b) & 0xff] ^ (c >> 8)` */
  function TableStep(c: Word, b: Byte): Word
  {
    Mix(TableEntry(Mix(c[..8], b)), c[8..] + Zeros(8))
  }

  function TableUpdate(c: Word, data: seq<Byte>): Word
    decreases |data|
  {
    if data == [] then c else TableUpdate(TableStep(c, data[0]), data[1..])
  }

  lemma ShiftLinear(a: Word, b: Word)
    ensures Shift(Mix(a, b)) == Mix(Shift(a), Shift(b))
  {
    assert Mix(a, b)[1..] + [false] == Mix(a[1..] + [false], b[1..] + [false]);
    forall i | 0 <= i < 32 ensures Shift(Mix(a, b))[i] == Mix(Shift(a), Shift(b))[i] {}
  }

  lemma {:induction false} ShiftsLinear(a: Word, b: Word, n: nat)
    ensures Shifts(Mix(a, b), n) == Mix(Shifts(a, n), Shifts(b, n))
    decreases n
  {
    if n > 0 {
      ShiftLinear(a, b);
      ShiftsLinear(Shift(a), Shift(b), n - 1);
    }
  }

  /** Clear bits shift out without feedback. */
  lemma {:induction false} ClearShifts(y: Word, n: nat)
    requires n <= 32 && forall i :: 0 <= i < n ==> !y[i]
    ensures Shifts(y, n) == y[n..] + Zeros(n)
    decreases n
  {
    if n == 0 {
      assert y[0..] + Zeros(0) == y;
    } else {
      var z := y[1..] + [false];
      assert Shift(y) == z;
      ClearShifts(z, n - 1);
      assert z[n - 1..] + Zeros(n - 1) == y[n..] + Zeros(n);
    }
  }

  lemma TableStepIsAbsorb(c: Word, b: Byte)
    ensures Absorb(c, b) == TableStep(c, b)
  {
    var low, high := Mix(c[..8], b) + Zeros(24), Zeros(8) + c[8..];
    assert Mix(c, b) == Mix(low, high);
    ShiftsLinear(low, high, 8);
    ClearShifts(high, 8);
    assert high[8..] == c[8..];
  }

  /** The bitwise loop refines the table-driven update. */
  lemma {:induction false} TableForm(c: Word, data: seq<Byte>)
    ensures Register(c, data) == TableUpdate(c, data)
    decreases |data|
  {
    if data != [] {
      TableStepIsAbsorb(c, data[0]);
      TableForm(Absorb(c, data[0]), data[1..]);
    }
  }
}
