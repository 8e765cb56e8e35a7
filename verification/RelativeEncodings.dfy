/**
  Rel32 instruction encodings (src/rr_evaluation_tail.h, src/rr_indirect_call.h,
  src/rr_native_option_policy.h).

  Addresses are natural numbers below 2^64.  Each encoder is written with the
  source's own case split on unsigned distances; the lemmas say exactly when it
  succeeds, in terms of the signed displacement, and what its bytes decode to.
*/
module RelativeEncodings {

  const MAX64 := 0xFFFF_FFFF_FFFF_FFFF
  const MAX_INT32 := 0x7FFF_FFFF
  const MIN_INT32 := -0x8000_0000

  type Byte = x: int | 0 <= x < 0x100
  type Address = x: int | 0 <= x <= MAX64
  type Int32 = x: int | MIN_INT32 <= x <= MAX_INT32

  datatype Option<+T> = None | Some(value: T)

  type Word = x: int | 0 <= x < 0x1_0000_0000

  /** The four little-endian bytes of a word. */
  function WordBytes(u: Word): (s: seq<Byte>)
    ensures |s| == 4
  {
    [u % 0x100, u / 0x100 % 0x100, u / 0x1_0000 % 0x100, u / 0x100_0000]
  }

  function WordValue(s: seq<Byte>): Word
    requires |s| == 4
  {
    var b0: int, b1: int, b2: int, b3: int := s[0], s[1], s[2], s[3];
    b0 + 0x100 * b1 + 0x1_0000 * b2 + 0x100_0000 * b3
  }

  lemma NextByte(v: nat, unit: nat)
    requires unit == 1 || unit == 0x100 || unit == 0x1_0000
    ensures v / unit == v / unit % 0x100 + 0x100 * (v / (0x100 * unit))
  {
    assert v / unit / 0x100 == v / (0x100 * unit);
  }

  lemma WordRoundTrip(u: Word)
    ensures WordValue(WordBytes(u)) == u
  {
    NextByte(u, 1);
    NextByte(u, 0x100);
    NextByte(u, 0x1_0000);
  }

  lemma BytesRoundTrip(s: seq<Byte>)
    requires |s| == 4
    ensures WordBytes(WordValue(s)) == s
  {
    var b0: int, b1: int, b2: int, b3: int := s[0], s[1], s[2], s[3];
    var u: int := WordValue(s);
    assert u % 0x100 == b0 && u / 0x100 == b1 + 0x100 * b2 + 0x1_0000 * b3;
    assert u / 0x1_0000 == b2 + 0x100 * b3;
    assert u / 0x100_0000 == b3;
  }

  /** The bytes of a two's-complement 32-bit value. */
  function Bytes32(v: Int32): (s: seq<Byte>)
    ensures |s| == 4
  {
    WordBytes(if v < 0 then v + 0x1_0000_0000 else v)
  }

  function Value32(s: seq<Byte>): Int32
    requires |s| == 4
  {
    if WordValue(s) > MAX_INT32 then WordValue(s) - 0x1_0000_0000 else WordValue(s)
  }

  lemma ValueOfBytes(v: Int32)
    ensures Value32(Bytes32(v)) == v
  {
    WordRoundTrip(if v < 0 then v + 0x1_0000_0000 else v);
  }

  lemma BytesOfValue(s: seq<Byte>)
    requires |s| == 4
    ensures Bytes32(Value32(s)) == s
  {
    BytesRoundTrip(s);
  }

  /** The displacement of a branch ending at `next`, by unsigned distances; none when it does not fit. */
  function Displacement(next: nat, target: Address): Option<Int32>
  {
    if target >= next then
      if target - next > MAX_INT32 then None else Some(target - next)
    else
      if next - target > MAX_INT32 + 1 then None else Some(-(next - target))
  }

  // --- Five-byte relative jumps ---

  function RelativeJump(site: Address, target: Address): (r: Option<seq<Byte>>)
    ensures r.Some? ==> |r.value| == 5
  {
    if site > MAX64 - 5 then None
    else
      var d := Displacement(site + 5, target);
      if d.None? then None else Some([0xE9] + Bytes32(d.value))
  }

  /** Where a relative branch with opcode `op` in its first byte goes. */
  function BranchTarget(code: seq<Byte>, op: Byte, site: Address): Option<int>
    requires |code| >= 5
  {
    if code[0] != op then None else Some(site + 5 + Value32(code[1..5]))
  }

  /** A jump is encoded exactly when its displacement is a signed 32-bit value, and then goes to the target. */
  lemma RelativeJumpExact(site: Address, target: Address)
    ensures RelativeJump(site, target).Some? <==>
            site <= MAX64 - 5 && MIN_INT32 <= target - (site + 5) <= MAX_INT32
    ensures RelativeJump(site, target).Some? ==>
              BranchTarget(RelativeJump(site, target).value, 0xE9, site) == Some(target)
  {
    var r := RelativeJump(site, target);
    if r.Some? {
      var d := Displacement(site + 5, target).value;
      assert r.value[1..5] == Bytes32(d);
      ValueOfBytes(d);
    }
  }

  /** A jump instruction is the encoding of where it goes. */
  lemma JumpDetermined(code: seq<Byte>, site: Address, target: Address)
    requires |code| == 5 && site <= MAX64 - 5
    ensures RelativeJump(site, target) == Some(code) <==> BranchTarget(code, 0xE9, site) == Some(target)
  {
    RelativeJumpExact(site, target);
    if BranchTarget(code, 0xE9, site) == Some(target) {
      BytesOfValue(code[1..5]);
      assert code == [0xE9] + code[1..5];
    }
  }

  function CheckedTailPatch(original: seq<Byte>, site: Address, expectedTarget: Address, relay: Address): Option<seq<Byte>>
  {
    var expected := RelativeJump(site, expectedTarget);
    if expected.None? || original != expected.value then None else RelativeJump(site, relay)
  }

  /**
    A tail is replaced exactly when it is a jump to the expected target and the
    relay is in reach; the replacement jumps to the relay, and patching back
    yields the original tail.
  */
  lemma CheckedTailPatchExact(original: seq<Byte>, site: Address, expectedTarget: Address, relay: Address)
    requires |original| == 5
    ensures var r := CheckedTailPatch(original, site, expectedTarget, relay);
            && (r.Some? <==> site <= MAX64 - 5 && BranchTarget(original, 0xE9, site) == Some(expectedTarget) &&
                             MIN_INT32 <= relay - (site + 5) <= MAX_INT32)
            && (r.Some? ==> |r.value| == 5 && BranchTarget(r.value, 0xE9, site) == Some(relay) &&
                            CheckedTailPatch(r.value, site, relay, expectedTarget) == Some(original))
  {
    RelativeJumpExact(site, relay);
    if site <= MAX64 - 5 { JumpDetermined(original, site, expectedTarget); }
  }

  function Bytes64(v: Address): (s: seq<Byte>)
    ensures |s| == 8
  {
    WordBytes(v % 0x1_0000_0000) + WordBytes(v / 0x1_0000_0000)
  }

  function Value64(s: seq<Byte>): int
    requires |s| == 8
  {
    WordValue(s[..4]) + 0x1_0000_0000 * WordValue(s[4..])
  }

  lemma AddressRoundTrip(v: Address)
    ensures Value64(Bytes64(v)) == v
  {
    assert Bytes64(v)[..4] == WordBytes(v % 0x1_0000_0000) && Bytes64(v)[4..] == WordBytes(v / 0x1_0000_0000);
    WordRoundTrip(v % 0x1_0000_0000);
    WordRoundTrip(v / 0x1_0000_0000);
  }

  /** `JMP [RIP+0]` followed by the address; a null target is refused. */
  function AbsoluteTail(target: Address): Option<seq<Byte>>
  {
    if target == 0 then None else Some([0xFF, 0x25, 0, 0, 0, 0] + Bytes64(target))
  }

  /** The slot an indirect jump or call reads lies right behind its six bytes, and holds the target. */
  lemma AbsoluteTailExact(target: Address)
    ensures AbsoluteTail(target).Some? <==> target != 0
    ensures target != 0 ==>
              var code := AbsoluteTail(target).value;
              |code| == 14 && code[..2] == [0xFF, 0x25] && Value32(code[2..6]) == 0 && Value64(code[6..]) == target
  {
    if target != 0 {
      var code := AbsoluteTail(target).value;
      assert code[6..] == Bytes64(target) && code[2..6] == [0, 0, 0, 0];
      AddressRoundTrip(target);
    }
  }

  // --- Six-byte indirect calls ---

  function DecodeIndirectCall(code: seq<Byte>, site: Address): Option<Address>
    requires |code| == 6
  {
    if code[0] != 0xFF || code[1] != 0x15 || site > MAX64 - 6 then None
    else
      var offset: int, next: int := Value32(code[2..6]), site + 6;
      if offset >= 0 then
        if next > MAX64 - offset || next + offset == 0 then None else Some(next + offset)
      else
        if next < -offset || next - (-offset) == 0 then None else Some(next - (-offset))
  }

  function ReplaceIndirectCall(code: seq<Byte>, site: Address, expectedSlot: Address, relay: Address): Option<seq<Byte>>
    requires |code| == 6
  {
    var slot := DecodeIndirectCall(code, site);
    if slot.None? || slot.value != expectedSlot || relay == 0 || site > MAX64 - 5 then None
    else
      var d := Displacement(site + 5, relay);
      if d.None? then None else Some([0xE8] + Bytes32(d.value) + [0x90])
  }

  /** An indirect call decodes to its slot exactly when the slot is a nonzero address. */
  lemma DecodeIndirectCallExact(code: seq<Byte>, site: Address)
    requires |code| == 6
    ensures var slot := site + 6 + Value32(code[2..6]);
            DecodeIndirectCall(code, site) ==
            if code[0] == 0xFF && code[1] == 0x15 && site <= MAX64 - 6 && 0 < slot <= MAX64 then Some(slot) else None
  {
  }

  /** The replacement is a direct call to the relay, padded so that it returns to the old continuation. */
  lemma ReplaceIndirectCallExact(code: seq<Byte>, site: Address, expectedSlot: Address, relay: Address)
    requires |code| == 6
    ensures var r := ReplaceIndirectCall(code, site, expectedSlot, relay);
            && (r.Some? <==> DecodeIndirectCall(code, site) == Some(expectedSlot) && relay != 0 &&
                             MIN_INT32 <= relay - (site + 5) <= MAX_INT32)
            && (r.Some? ==> |r.value| == 6 && r.value[5] == 0x90 && BranchTarget(r.value, 0xE8, site) == Some(relay))
  {
    var r := ReplaceIndirectCall(code, site, expectedSlot, relay);
    if r.Some? {
      var d := Displacement(site + 5, relay).value;
      assert r.value[1..5] == Bytes32(d);
      ValueOfBytes(d);
    }
  }

  // --- Six-byte compares of a byte addressed relative to the instruction ---

  const SPACE := 0x1_0000_0000_0000_0000

  /** Address arithmetic is modulo the size of the address space. */
  function Wrap(x: int): Address { x % SPACE }

  /** The difference of two addresses as a two's-complement 64-bit value. */
  function Distance(from: Address, to: Address): int
  {
    var d := (to - from) % SPACE;
    if d < 0x8000_0000_0000_0000 then d else d - SPACE
  }

  function RedirectRipByteCompare(
    code: seq<Byte>, site: Address, expectedTarget: Address, replacementTarget: Address): Option<seq<Byte>>
    requires |code| == 6
  {
    if code[0] != 0x38 || code[1] != 0x1D then None
    else
      var after := Wrap(site + 6);
      if Wrap(after + Value32(code[2..6])) != expectedTarget then None
      else
        var delta := Distance(after, replacementTarget);
        if delta < MIN_INT32 || delta > MAX_INT32 then None else Some(code[..2] + Bytes32(delta))
  }

  function DecodeRipByteCompareTarget(code: seq<Byte>, site: Address): Address
    requires |code| == 6
  {
    if code[0] != 0x38 || code[1] != 0x1D then 0 else Wrap(Wrap(site + 6) + Value32(code[2..6]))
  }

  predicate IsCompare(code: seq<Byte>) { |code| == 6 && code[0] == 0x38 && code[1] == 0x1D }

  /** Going the distance from one address leads to the other ... */
  lemma DistanceLeads(from: Address, to: Address)
    ensures Wrap(from + Distance(from, to)) == to
  {
  }

  /** ... and a displacement of 32 bits is the distance to where it leads. */
  lemma DistanceOf(from: Address, d: Int32)
    ensures Distance(from, Wrap(from + d)) == d
  {
  }

  /** A compare is redirected exactly when it reads the expected target and the new one is in reach. */
  lemma RedirectExact(code: seq<Byte>, site: Address, oldTarget: Address, newTarget: Address)
    requires |code| == 6
    ensures var r := RedirectRipByteCompare(code, site, oldTarget, newTarget);
            && (r.Some? <==> IsCompare(code) && DecodeRipByteCompareTarget(code, site) == oldTarget &&
                             MIN_INT32 <= Distance(Wrap(site + 6), newTarget) <= MAX_INT32)
            && (r.Some? ==> IsCompare(r.value) && DecodeRipByteCompareTarget(r.value, site) == newTarget)
  {
    var r := RedirectRipByteCompare(code, site, oldTarget, newTarget);
    if r.Some? {
      var delta := Distance(Wrap(site + 6), newTarget);
      assert r.value[2..6] == Bytes32(delta);
      ValueOfBytes(delta);
      DistanceLeads(Wrap(site + 6), newTarget);
    }
  }

  /** Redirecting back to the old target restores the original six bytes. */
  lemma RedirectBack(code: seq<Byte>, site: Address, oldTarget: Address, newTarget: Address)
    requires |code| == 6 && RedirectRipByteCompare(code, site, oldTarget, newTarget).Some?
    ensures var patched := RedirectRipByteCompare(code, site, oldTarget, newTarget).value;
            |patched| == 6 && RedirectRipByteCompare(patched, site, newTarget, oldTarget) == Some(code)
  {
    RedirectExact(code, site, oldTarget, newTarget);
    var patched := RedirectRipByteCompare(code, site, oldTarget, newTarget).value;
    RedirectExact(patched, site, newTarget, oldTarget);
    DistanceOf(Wrap(site + 6), Value32(code[2..6]));
    BytesOfValue(code[2..6]);
    assert patched[..2] == code[..2] && code == code[..2] + code[2..6];
  }
}
