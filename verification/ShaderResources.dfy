/**
  The resource table of a shader (src/rr_albedo_shader.h:170-238).
*/
module ShaderResources {
  import opened ShaderBytes

  // Operand classes of the three kinds of binding.
  const SAMPLER := 6
  const RESOURCE := 7
  const CONSTANT_BUFFER := 8

  datatype Binding = Binding(
    kind: Word, operandType: nat, identifier: Word, space: Word,
    first: Word, last: Word, vectorCount: Word, structureStride: Word, declared: bool)

  // One record of the table as it is stored.
  datatype Record = Record(
    name: Word, kind: Word, stride: Word, slot: Word, slots: Word, space: Word, identifier: Word)

  function RecordStride(model51: bool): nat { if model51 then 40 else 32 }

  function VariableStride(major: nat): nat { if major == 5 then 40 else 24 }

  predicate HeaderUsable(s: seq<Byte>, stage: nat, model51: bool)
  {
    && |s| >= 28
    && (model51 ==> WordAt(s, 16) == if stage == 0 then 0xFFFF_0501 else 0xFFFE_0501)
    && WordAt(s, 0) <= 256 && WordAt(s, 8) <= 256
    && (WordAt(s, 0) != 0 ==> WordAt(s, 4) >= 28 && Table(WordAt(s, 4), WordAt(s, 0), 24, |s|))
    && (WordAt(s, 8) != 0 ==> WordAt(s, 12) >= 28 && Table(WordAt(s, 12), WordAt(s, 8), RecordStride(model51), |s|))
  }

  /** Constant buffer `i` is named and its variables fit. */
  ghost predicate BufferOk(s: seq<Byte>, stage: nat, major: nat, model51: bool, i: nat)
    requires HeaderUsable(s, stage, model51) && i < WordAt(s, 0)
  {
    RecordFits(WordAt(s, 4), WordAt(s, 0), 24, |s|, i);
    var p := WordAt(s, 4) + i * 24;
    && HasString(s, WordAt(s, p))
    && WordAt(s, p + 4) <= 4096
    && (WordAt(s, p + 4) != 0 ==> Table(WordAt(s, p + 8), WordAt(s, p + 4), VariableStride(major), |s|))
  }

  function RecordAt(s: seq<Byte>, stage: nat, model51: bool, i: nat): Record
    requires HeaderUsable(s, stage, model51) && i < WordAt(s, 8)
  {
    RecordFits(WordAt(s, 12), WordAt(s, 8), RecordStride(model51), |s|, i);
    var p := WordAt(s, 12) + i * RecordStride(model51);
    Record(WordAt(s, p), WordAt(s, p + 4), WordAt(s, p + 16), WordAt(s, p + 20), WordAt(s, p + 24),
           if model51 then WordAt(s, p + 32) else 0, if model51 then WordAt(s, p + 36) else 0)
  }

  predicate KnownKind(kind: Word)
  {
    kind == 0 || kind == 1 || kind == 2 || kind == 3 || kind == 5 || kind == 7
  }

  predicate SlotsOk(model51: bool, slot: Word, slots: Word)
  {
    if model51 then slots == 0 || slots - 1 <= MAX_WORD - slot
    else slots != 0 && slot < 4096 && slots <= 4096 - slot
  }

  ghost predicate RecordOk(s: seq<Byte>, model51: bool, r: Record)
  {
    HasString(s, r.name) && SlotsOk(model51, r.slot, r.slots) && KnownKind(r.kind)
  }

  /** The model 5.1 binding a record stands for; no slots means an unbounded range. */
  function BindingOf(r: Record): Binding
    requires SlotsOk(true, r.slot, r.slots)
  {
    Binding(r.kind, if r.kind == 0 then CONSTANT_BUFFER else if r.kind == 3 then SAMPLER else RESOURCE,
            r.identifier, r.space, r.slot, if r.slots == 0 then MAX_WORD else r.slot + (r.slots - 1),
            0, if r.kind == 5 then r.stride else 0, false)
  }

  /** Two bindings of one class that a shader could not tell apart. */
  predicate Clash(a: Binding, b: Binding)
  {
    && a.operandType == b.operandType
    && (a.identifier == b.identifier ||
        (a.space == b.space && a.first <= b.last && b.first <= a.last))
  }

  predicate NoClash(bindings: seq<Binding>)
  {
    forall i, j :: 0 <= i < j < |bindings| ==> !Clash(bindings[j], bindings[i])
  }

  /** The bindings of the first `n` records. */
  ghost predicate AreBindings(s: seq<Byte>, stage: nat, model51: bool, n: nat, bindings: seq<Binding>)
    requires HeaderUsable(s, stage, model51) && n <= WordAt(s, 8)
  {
    if model51 then
      && |bindings| == n
      && (forall i :: 0 <= i < n ==> SlotsOk(true, RecordAt(s, stage, true, i).slot, RecordAt(s, stage, true, i).slots))
      && forall i :: 0 <= i < n ==> bindings[i] == BindingOf(RecordAt(s, stage, true, i))
    else
      bindings == []
  }

  /** The table is acceptable and `bindings` is what it declares. */
  ghost predicate IsTable(s: seq<Byte>, stage: nat, major: nat, model51: bool, bindings: seq<Binding>)
  {
    && HeaderUsable(s, stage, model51)
    && (forall i :: 0 <= i < WordAt(s, 0) ==> BufferOk(s, stage, major, model51, i))
    && (forall i :: 0 <= i < WordAt(s, 8) ==> RecordOk(s, model51, RecordAt(s, stage, model51, i)))
    && AreBindings(s, stage, model51, WordAt(s, 8), bindings)
    && NoClash(bindings)
  }

  method ReadBuffers(s: seq<Byte>, stage: nat, major: nat, model51: bool) returns (ok: bool)
    requires HeaderUsable(s, stage, model51)
    ensures ok <==> forall i :: 0 <= i < WordAt(s, 0) ==> BufferOk(s, stage, major, model51, i)
  {
    var count: nat := WordAt(s, 0);
    var i: nat := 0;
    while i < count
      invariant 0 <= i <= count
      invariant forall k :: 0 <= k < i ==> BufferOk(s, stage, major, model51, k)
    {
      var fits := ReadBuffer(s, stage, major, model51, i);
      if !fits { return false; }
      i := i + 1;
    }
    return true;
  }

  method ReadBuffer(s: seq<Byte>, stage: nat, major: nat, model51: bool, i: nat) returns (ok: bool)
    requires HeaderUsable(s, stage, model51) && i < WordAt(s, 0)
    ensures ok <==> BufferOk(s, stage, major, model51, i)
  {
    RecordFits(WordAt(s, 4), WordAt(s, 0), 24, |s|, i);
    var p: nat := WordAt(s, 4) + i * 24;
    var named := StringAt(s, WordAt(s, p), None);
    var variables := WordAt(s, p + 4);
    return named && variables <= 4096 &&
           (variables == 0 || Table(WordAt(s, p + 8), variables, VariableStride(major), |s|));
  }

  /** The scan of a new binding against those already read. */
  method Clashes(bindings: seq<Binding>, b: Binding) returns (hit: bool)
    ensures hit <==> exists j :: 0 <= j < |bindings| && Clash(b, bindings[j])
  {
    var j := 0;
    while j < |bindings|
      invariant 0 <= j <= |bindings|
      invariant forall k :: 0 <= k < j ==> !Clash(b, bindings[k])
    {
      var previous := bindings[j];
      if previous.operandType == b.operandType {
        if previous.identifier == b.identifier { return true; }
        if previous.space == b.space && b.first <= previous.last && previous.first <= b.last { return true; }
      }
      j := j + 1;
    }
    return false;
  }

  /** The record loop.  On rejection some prefix of the table is already unacceptable. */
  method ReadRecords(s: seq<Byte>, stage: nat, model51: bool) returns (r: Option<seq<Binding>>)
    requires HeaderUsable(s, stage, model51)
    ensures r.Some? ==>
              && (forall i :: 0 <= i < WordAt(s, 8) ==> RecordOk(s, model51, RecordAt(s, stage, model51, i)))
              && AreBindings(s, stage, model51, WordAt(s, 8), r.value) && NoClash(r.value)
    ensures r.None? ==> forall major, bindings :: !IsTable(s, stage, major, model51, bindings)
  {
    var count := WordAt(s, 8);
    var bindings: seq<Binding> := [];
    var i := 0;
    while i < count
      invariant 0 <= i <= count
      invariant forall k :: 0 <= k < i ==> RecordOk(s, model51, RecordAt(s, stage, model51, k))
      invariant AreBindings(s, stage, model51, i, bindings) && NoClash(bindings)
    {
      var record := RecordAt(s, stage, model51, i);
      var named := StringAt(s, record.name, None);
      if !named || !SlotsOk(model51, record.slot, record.slots) || !KnownKind(record.kind) { return None; }
      if model51 {
        var b := BindingOf(record);
        var hit := Clashes(bindings, b);
        if hit {
          ClashRejects(s, stage, i, bindings, b);
          return None;
        }
        BindingNext(s, stage, i, bindings, b);
        bindings := bindings + [b];
      }
      i := i + 1;
    }
    return Some(bindings);
  }

  lemma BindingNext(s: seq<Byte>, stage: nat, i: nat, read: seq<Binding>, b: Binding)
    requires HeaderUsable(s, stage, true) && i < WordAt(s, 8) && AreBindings(s, stage, true, i, read)
    requires SlotsOk(true, RecordAt(s, stage, true, i).slot, RecordAt(s, stage, true, i).slots)
    requires b == BindingOf(RecordAt(s, stage, true, i))
    requires NoClash(read) && forall j :: 0 <= j < |read| ==> !Clash(b, read[j])
    ensures AreBindings(s, stage, true, i + 1, read + [b]) && NoClash(read + [b])
  {
  }

  lemma ClashRejects(s: seq<Byte>, stage: nat, i: nat, read: seq<Binding>, b: Binding)
    requires HeaderUsable(s, stage, true) && i < WordAt(s, 8) && AreBindings(s, stage, true, i, read)
    requires SlotsOk(true, RecordAt(s, stage, true, i).slot, RecordAt(s, stage, true, i).slots)
    requires b == BindingOf(RecordAt(s, stage, true, i))
    requires exists j :: 0 <= j < |read| && Clash(b, read[j])
    ensures forall major, bindings :: !IsTable(s, stage, major, true, bindings)
  {
    var j :| 0 <= j < |read| && Clash(b, read[j]);
    forall major, bindings ensures !IsTable(s, stage, major, true, bindings) {
      if AreBindings(s, stage, true, WordAt(s, 8), bindings) {
        assert bindings[j] == read[j] && bindings[i] == b;
      }
    }
  }

  method ReadResources(s: seq<Byte>, stage: nat, major: nat, model51: bool) returns (r: Option<seq<Binding>>)
    ensures r.Some? ==> IsTable(s, stage, major, model51, r.value)
    ensures r.None? ==> forall bindings :: !IsTable(s, stage, major, model51, bindings)
  {
    if |s| < 28 { return None; }
    if model51 && WordAt(s, 16) != (if stage == 0 then 0xFFFF_0501 else 0xFFFE_0501) { return None; }
    var bufferCount, bufferOffset, count, offset := WordAt(s, 0), WordAt(s, 4), WordAt(s, 8), WordAt(s, 12);
    if bufferCount > 256 || count > 256 ||
       (bufferCount != 0 && (bufferOffset < 28 || !Table(bufferOffset, bufferCount, 24, |s|))) ||
       (count != 0 && (offset < 28 || !Table(offset, count, RecordStride(model51), |s|))) {
      return None;
    }
    var buffers := ReadBuffers(s, stage, major, model51);
    if !buffers { return None; }
    r := ReadRecords(s, stage, model51);
  }

  /** A table has one reading. */
  lemma TableUnique(s: seq<Byte>, stage: nat, major: nat, model51: bool, a: seq<Binding>, b: seq<Binding>)
    requires IsTable(s, stage, major, model51, a) && IsTable(s, stage, major, model51, b)
    ensures a == b
  {
  }

  /** No register of one class and space belongs to two bindings of an accepted table. */
  lemma RegistersOwnedOnce(bindings: seq<Binding>, i: nat, j: nat, register: Word)
    requires NoClash(bindings) && i < |bindings| && j < |bindings|
    requires bindings[i].operandType == bindings[j].operandType && bindings[i].space == bindings[j].space
    requires bindings[i].first <= register <= bindings[i].last
    requires bindings[j].first <= register <= bindings[j].last
    ensures i == j
  {
    assert i < j ==> Clash(bindings[j], bindings[i]);
    assert j < i ==> Clash(bindings[i], bindings[j]);
  }
}
