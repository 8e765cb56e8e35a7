/**
  The output signature of a shader (src/rr_albedo_shader.h:127-169).
*/
module ShaderSignature {
  import opened ShaderBytes
  import opened ShaderContainer

  // What validation publishes about a pixel shader.
  datatype Contract = Contract(
    targetCount: nat,
    componentMasks: seq<Byte>,
    neverWritesMasks: seq<Byte>,
    instructionCount: nat,
    resourceCount: nat,
    shaderMajor: nat,
    shaderMinor: nat)

  const EMPTY := Contract(0, [0, 0], [0, 0], 0, 0, 0, 0)

  // "SV_Target"
  const SV_TARGET: seq<Byte> := [0x53, 0x56, 0x5F, 0x54, 0x61, 0x72, 0x67, 0x65, 0x74]

  datatype Record = Record(
    stream: Word, name: Word, index: Word, system: Word, component: Word, register: Word,
    mask: Byte, neverWrites: Byte, pad0: Byte, pad1: Byte, precision: Word)

  function Stride(tag: Word): nat
  {
    if tag == TAG_OSG1 then 32 else if tag == TAG_OSGN then 24 else 28
  }

  /** The record count and table offset are usable. */
  predicate TableUsable(s: seq<Byte>, tag: Word, pixel: bool)
  {
    && |s| >= 8
    && 0 < WordAt(s, 0) <= (if pixel then 2 else 32)
    && WordAt(s, 4) >= 8
    && WordAt(s, 4) % 4 == 0
    && Table(WordAt(s, 4), WordAt(s, 0), Stride(tag), |s|)
  }

  function RecordAt(s: seq<Byte>, tag: Word, pixel: bool, i: nat): Record
    requires TableUsable(s, tag, pixel) && i < WordAt(s, 0)
  {
    RecordFits(WordAt(s, 4), WordAt(s, 0), Stride(tag), |s|, i);
    var start := WordAt(s, 4) + i * Stride(tag);
    var p := start + if tag == TAG_OSGN then 0 else 4;
    Record(if tag == TAG_OSGN then 0 else WordAt(s, start),
           WordAt(s, p), WordAt(s, p + 4), WordAt(s, p + 8), WordAt(s, p + 12), WordAt(s, p + 16),
           s[p + 20], s[p + 21], s[p + 22], s[p + 23],
           if Stride(tag) == 32 then WordAt(s, start + 28) else 0)
  }

  /** What one record must say, on its own. */
  ghost predicate RecordOk(s: seq<Byte>, tag: Word, pixel: bool, r: Record)
    requires |s| >= 8
  {
    && r.stream == 0
    && r.name >= WordAt(s, 4) + WordAt(s, 0) * Stride(tag)
    && HasString(s, r.name)
    && 0 < r.mask < 16 && r.neverWrites < 16 && r.pad0 == 0 && r.pad1 == 0
    && r.precision == 0
    && if pixel then
         && HasStringNamed(s, r.name, SV_TARGET)
         && (r.system == 0 || r.system == 64)
         && r.component == 3
         && r.index == r.register
         && r.register < WordAt(s, 0)
         && r.mask % 8 == 7
         && r.neverWrites % 8 == 0
       else
         r.register < 32 && 1 <= r.component <= 3
  }

  /** The first `n` records are good and, for a pixel shader, name distinct targets. */
  ghost predicate RecordsOk(s: seq<Byte>, tag: Word, pixel: bool, n: nat)
    requires TableUsable(s, tag, pixel) && n <= WordAt(s, 0)
  {
    && (forall i :: 0 <= i < n ==> RecordOk(s, tag, pixel, RecordAt(s, tag, pixel, i)))
    && (pixel ==> forall i, j :: 0 <= i < j < n ==>
          RecordAt(s, tag, pixel, i).register != RecordAt(s, tag, pixel, j).register)
  }

  ghost predicate SignatureOk(s: seq<Byte>, tag: Word, pixel: bool)
  {
    TableUsable(s, tag, pixel) && RecordsOk(s, tag, pixel, WordAt(s, 0))
  }

  /** The published masks are the masks of the records, filed under their registers. */
  ghost predicate Publishes(s: seq<Byte>, tag: Word, n: nat, masks: seq<Byte>, never: seq<Byte>)
    requires TableUsable(s, tag, true) && n <= WordAt(s, 0)
  {
    && |masks| == 2 && |never| == 2
    && forall i :: 0 <= i < n ==>
         var r := RecordAt(s, tag, true, i);
         r.register < 2 && masks[r.register] == r.mask && never[r.register] == r.neverWrites
  }

  /** Only the second target can be missing, and then its masks are as they were. */
  ghost predicate Untouched(before: Contract, after: Contract, count: nat)
    requires |before.componentMasks| == 2 && |before.neverWritesMasks| == 2
  {
    && |after.componentMasks| == 2 && |after.neverWritesMasks| == 2
    && (count == 1 ==> after.componentMasks[1] == before.componentMasks[1] &&
                       after.neverWritesMasks[1] == before.neverWritesMasks[1])
  }

  /** Distinct targets below the count leave no gap: every target register has its record. */
  lemma TargetsContiguous(s: seq<Byte>, tag: Word, register: nat)
    requires SignatureOk(s, tag, true) && register < WordAt(s, 0)
    ensures exists i :: 0 <= i < WordAt(s, 0) && RecordAt(s, tag, true, i).register == register
  {
    assert RecordOk(s, tag, true, RecordAt(s, tag, true, 0));
    if WordAt(s, 0) == 2 {
      assert RecordOk(s, tag, true, RecordAt(s, tag, true, 1));
      assert RecordAt(s, tag, true, 0).register != RecordAt(s, tag, true, 1).register;
    }
  }

  /** The checks on one record. */
  method ReadRecord(s: seq<Byte>, tag: Word, pixel: bool, i: nat) returns (ok: bool, r: Record)
    requires TableUsable(s, tag, pixel) && i < WordAt(s, 0)
    ensures r == RecordAt(s, tag, pixel, i)
    ensures ok <==> RecordOk(s, tag, pixel, r)
  {
    var count, offset, stride := WordAt(s, 0), WordAt(s, 4), Stride(tag);
    r := RecordAt(s, tag, pixel, i);
    if tag != TAG_OSGN && r.stream != 0 { return false, r; }
    var named := StringAt(s, r.name, None);
    if r.name < offset + count * stride || !named || r.mask >= 16 || r.mask == 0 ||
       r.neverWrites >= 16 || r.pad0 != 0 || r.pad1 != 0 {
      return false, r;
    }
    if stride == 32 && r.precision != 0 { return false, r; }
    if pixel {
      var target := StringAt(s, r.name, Some(SV_TARGET));
      ok := !(!target || (r.system != 0 && r.system != 64) || r.component != 3 || r.index != r.register ||
              r.register >= count || r.mask % 8 != 7 || r.neverWrites % 8 != 0);
    } else {
      ok := !(r.register >= 32 || r.component < 1 || r.component > 3);
    }
  }

  /** The registers of the first `n` records, in table order. */
  ghost predicate AreTargets(s: seq<Byte>, tag: Word, targets: seq<nat>)
    requires TableUsable(s, tag, true) && |targets| <= WordAt(s, 0)
  {
    forall i :: 0 <= i < |targets| ==> targets[i] == RecordAt(s, tag, true, i).register
  }

  lemma AnotherTarget(s: seq<Byte>, tag: Word, targets: seq<nat>)
    requires TableUsable(s, tag, true) && |targets| < WordAt(s, 0) && AreTargets(s, tag, targets)
    requires RecordsOk(s, tag, true, |targets|)
    requires RecordOk(s, tag, true, RecordAt(s, tag, true, |targets|))
    ensures RecordsOk(s, tag, true, |targets| + 1) <==> RecordAt(s, tag, true, |targets|).register !in targets
  {
    var r := RecordAt(s, tag, true, |targets|).register;
    if r in targets {
      var i :| 0 <= i < |targets| && targets[i] == r;
      assert RecordAt(s, tag, true, i).register == r;
    }
  }

  function AllTargets(count: nat): set<nat>
  {
    if count == 1 then {0} else {0, 1}
  }

  lemma TargetsCover(s: seq<Byte>, tag: Word, targets: seq<nat>)
    requires SignatureOk(s, tag, true) && |targets| == WordAt(s, 0) && AreTargets(s, tag, targets)
    ensures (set g | g in targets) == AllTargets(WordAt(s, 0))
  {
    forall i | 0 <= i < |targets| ensures targets[i] < WordAt(s, 0) {
      assert RecordOk(s, tag, true, RecordAt(s, tag, true, i));
    }
    forall g: nat | g < WordAt(s, 0) ensures g in targets {
      TargetsContiguous(s, tag, g);
      var i :| 0 <= i < WordAt(s, 0) && RecordAt(s, tag, true, i).register == g;
      assert targets[i] == g;
    }
  }

  method ReadOutputs(s: seq<Byte>, tag: Word, pixel: bool, contract: Contract) returns (r: Option<Contract>)
    requires |contract.componentMasks| == 2 && |contract.neverWritesMasks| == 2
    ensures r.Some? <==> SignatureOk(s, tag, pixel)
    ensures r.Some? && !pixel ==> r.value == contract
    ensures r.Some? && pixel ==>
              && r.value == contract.(targetCount := WordAt(s, 0), componentMasks := r.value.componentMasks,
                                      neverWritesMasks := r.value.neverWritesMasks)
              && Publishes(s, tag, WordAt(s, 0), r.value.componentMasks, r.value.neverWritesMasks)
              && Untouched(contract, r.value, WordAt(s, 0))
  {
    if |s| < 8 { return None; }
    var count, offset, stride := WordAt(s, 0), WordAt(s, 4), Stride(tag);
    if count == 0 || count > (if pixel then 2 else 32) || offset < 8 || offset % 4 != 0 ||
       !Table(offset, count, stride, |s|) {
      return None;
    }
    if pixel {
      r := ReadTargets(s, tag, contract);
      return;
    }
    var i := 0;
    while i < count
      invariant 0 <= i <= count
      invariant RecordsOk(s, tag, false, i)
    {
      var ok, record := ReadRecord(s, tag, false, i);
      if !ok { return None; }
      i := i + 1;
    }
    return Some(contract);
  }

  lemma PublishNext(s: seq<Byte>, tag: Word, n: nat, masks: seq<Byte>, never: seq<Byte>)
    requires TableUsable(s, tag, true) && n < WordAt(s, 0)
    requires RecordsOk(s, tag, true, n + 1) && Publishes(s, tag, n, masks, never)
    ensures var r := RecordAt(s, tag, true, n);
            r.register < 2 &&
            Publishes(s, tag, n + 1, masks[r.register := r.mask], never[r.register := r.neverWrites])
  {
    assert RecordOk(s, tag, true, RecordAt(s, tag, true, n));
  }

  /** The record loop of a pixel shader, which also files masks and rejects duplicates and gaps. */
  method ReadTargets(s: seq<Byte>, tag: Word, contract: Contract) returns (r: Option<Contract>)
    requires TableUsable(s, tag, true)
    requires |contract.componentMasks| == 2 && |contract.neverWritesMasks| == 2
    ensures r.Some? <==> SignatureOk(s, tag, true)
    ensures r.Some? ==>
              && r.value == contract.(targetCount := WordAt(s, 0), componentMasks := r.value.componentMasks,
                                      neverWritesMasks := r.value.neverWritesMasks)
              && Publishes(s, tag, WordAt(s, 0), r.value.componentMasks, r.value.neverWritesMasks)
              && Untouched(contract, r.value, WordAt(s, 0))
  {
    var count := WordAt(s, 0);
    var registers: set<nat> := {};
    ghost var targets: seq<nat> := [];
    var masks: seq<Byte>, never: seq<Byte> := contract.componentMasks, contract.neverWritesMasks;
    var i := 0;
    while i < count
      invariant 0 <= i <= count && i == |targets|
      invariant RecordsOk(s, tag, true, i) && Publishes(s, tag, i, masks, never)
      invariant AreTargets(s, tag, targets) && registers == set g | g in targets
      invariant count == 1 ==> masks[1] == contract.componentMasks[1] && never[1] == contract.neverWritesMasks[1]
    {
      var ok, record := ReadRecord(s, tag, true, i);
      if !ok { return None; }
      AnotherTarget(s, tag, targets);
      if record.register in registers { return None; }
      PublishNext(s, tag, i, masks, never);
      targets := targets + [record.register];
      registers := registers + {record.register};
      masks := masks[record.register := record.mask];
      never := never[record.register := record.neverWrites];
      i := i + 1;
    }
    TargetsCover(s, tag, targets);
    r := if registers == AllTargets(count)
         then Some(contract.(targetCount := count, componentMasks := masks, neverWritesMasks := never))
         else None;
  }
}
