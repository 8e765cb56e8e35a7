/**
  What acceptance says of a whole shader, in numbers: its targets, its
  declarations and its end (src/rr_albedo_shader.h:127-169, 359-484).
*/
module ShaderAcceptance {
  import opened ShaderBytes
  import opened ShaderOperand
  import opened ShaderProgram
  import opened ShaderParser
  import opened ShaderTables
  import Layout
  import Control = ShaderControl
  import ShaderReader
  import Container = ShaderContainer
  import Signature = ShaderSignature
  import Resources = ShaderResources

  /** Instruction `j` declares target `g`. */
  predicate DeclaresTarget(q: seq<Instruction>, j: nat, g: nat)
    requires j < |q|
  {
    q[j].Declare? && 101 <= Opcode(q[j].token) <= 103 && IndexWord(q[j].operand, 0) == g
  }

  ghost predicate TargetDeclared(q: seq<Instruction>, n: nat, g: nat)
    requires n <= |q|
  {
    exists j :: 0 <= j < n && DeclaresTarget(q, j, g)
  }

  lemma TargetNext(q: seq<Instruction>, n: nat, g: nat)
    requires n < |q|
    ensures TargetDeclared(q, n + 1, g) <==> TargetDeclared(q, n, g) || DeclaresTarget(q, n, g)
  {
    if TargetDeclared(q, n, g) {
      var j :| 0 <= j < n && DeclaresTarget(q, j, g);
      assert j < n + 1;
    }
  }

  /** The reader's set of targets is that of the declarations read so far. */
  lemma {:induction false} TargetsTrack(sh: Shader, bindings: seq<Binding>, code: seq<Word>, q: seq<Instruction>, n: nat, g: nat)
    requires sh.pixel && Legal(sh, bindings, code, q) && n <= |q|
    ensures g in StateAt(sh, bindings, q, n).targets <==> TargetDeclared(q, n, g)
  {
    if n > 0 {
      TargetsTrack(sh, bindings, code, q, n - 1, g);
      LegalAt(sh, bindings, code, q, n - 1);
      TargetNext(q, n - 1, g);
    }
  }

  /** A declaration of a target of a pixel shader, in numbers. */
  lemma TargetFacts(sh: Shader, s: Progress, i: Instruction)
    requires sh.pixel && InstructionOk(sh, s, i) && i.Declare? && 101 <= Opcode(i.token) <= 103
    ensures Opcode(i.token) == 101 && Kind(i.operand.token) == 2 && ImmediateAt(i.operand, 0)
    ensures IndexWord(i.operand, 0) < sh.targetCount && IndexWord(i.operand, 0) < |sh.masks| && IndexWord(i.operand, 0) !in s.targets
    ensures WriteMask(i.operand.token) == sh.masks[IndexWord(i.operand, 0)]
  {
    assert DeclarationOk(sh, s, Opcode(i.token), i.operand, i.trailing);
    assert OperandOk(sh, s.bindings, i.operand, 0, true);
  }

  lemma TargetOnce(sh: Shader, bindings: seq<Binding>, code: seq<Word>, q: seq<Instruction>, i: nat, j: nat, g: nat)
    requires sh.pixel && Legal(sh, bindings, code, q) && i < |q| && j < |q|
    requires DeclaresTarget(q, i, g) && DeclaresTarget(q, j, g)
    ensures i == j
  {
    var later := if i < j then j else i;
    TargetsTrack(sh, bindings, code, q, later, g);
    LegalAt(sh, bindings, code, q, later);
    TargetFacts(sh, StateAt(sh, bindings, q, later), q[later]);
  }

  type Binding = Resources.Binding

  /** Instruction `j` alone declares target `g`, by opcode 101 and with this mask. */
  predicate OnlyDeclares(q: seq<Instruction>, j: nat, g: nat, mask: nat)
  {
    && j < |q| && DeclaresTarget(q, j, g) && (forall i :: 0 <= i < |q| && DeclaresTarget(q, i, g) ==> i == j)
    && Opcode(q[j].token) == 101 && WriteMask(q[j].operand.token) == mask
  }

  lemma ProgramDeclares(sh: Shader, bindings: seq<Binding>, code: seq<Word>, q: seq<Instruction>, g: nat) returns (j: nat)
    requires IsProgram(sh, bindings, code, q) && sh.pixel && 1 <= sh.targetCount <= 2 && g < sh.targetCount && g < |sh.masks|
    ensures OnlyDeclares(q, j, g, sh.masks[g])
  {
    TargetsTrack(sh, bindings, code, q, |q|, g);
    j :| 0 <= j < |q| && DeclaresTarget(q, j, g);
    LegalAt(sh, bindings, code, q, j);
    TargetFacts(sh, StateAt(sh, bindings, q, j), q[j]);
    forall i | 0 <= i < |q| && DeclaresTarget(q, i, g) ensures i == j {
      TargetOnce(sh, bindings, code, q, i, j, g);
    }
  }

  lemma PixelProgram(data: seq<Byte>, c: Container.Container, bindings: seq<Binding>, q: seq<Instruction>, contract: Contract)
    requires IsShader(data, true, c, bindings, q, contract)
    ensures IsProgram(ShaderOf(c, true, contract), bindings, CodeWords(data, c.code), q)
    ensures 1 <= contract.targetCount <= 2 && |contract.componentMasks| == 2
  {
  }

  /**
    Every target of an accepted pixel shader is declared by exactly one instruction,
    by opcode 101 and with the mask of the signature.
  */
  lemma TargetsDeclaredOnce(
    data: seq<Byte>, c: Container.Container, bindings: seq<Binding>, q: seq<Instruction>, contract: Contract, g: nat)
    returns (j: nat)
    requires IsShader(data, true, c, bindings, q, contract) && g < contract.targetCount
    ensures g < |contract.componentMasks| && OnlyDeclares(q, j, g, contract.componentMasks[g])
  {
    PixelProgram(data, c, bindings, q, contract);
    j := ProgramDeclares(ShaderOf(c, true, contract), bindings, CodeWords(data, c.code), q, g);
  }

  /** Nothing else is declared as an output. */
  lemma OutputsAreTargets(
    data: seq<Byte>, c: Container.Container, bindings: seq<Binding>, q: seq<Instruction>, contract: Contract, i: nat)
    requires IsShader(data, true, c, bindings, q, contract) && i < |q| && q[i].Declare? && 101 <= Opcode(q[i].token) <= 103
    ensures DeclaresTarget(q, i, IndexWord(q[i].operand, 0)) && IndexWord(q[i].operand, 0) < contract.targetCount
  {
    var sh, code := ShaderOf(c, true, contract), CodeWords(data, c.code);
    LegalAt(sh, bindings, code, q, i);
    TargetFacts(sh, StateAt(sh, bindings, q, i), q[i]);
  }

  // --- Order and end ---

  /** Nothing is declared once something was executed. */
  lemma {:induction false} ExecutingStays(sh: Shader, bindings: seq<Binding>, code: seq<Word>, q: seq<Instruction>, i: nat, n: nat)
    requires Legal(sh, bindings, code, q) && i < n <= |q| && q[i].Execute?
    ensures StateAt(sh, bindings, q, n).executing
    decreases n
  {
    LegalAt(sh, bindings, code, q, n - 1);
    if i < n - 1 { ExecutingStays(sh, bindings, code, q, i, n - 1); }
  }

  lemma DeclarationsFirst(
    data: seq<Byte>, pixel: bool, c: Container.Container, bindings: seq<Binding>, q: seq<Instruction>, contract: Contract, i: nat, j: nat)
    requires IsShader(data, pixel, c, bindings, q, contract) && i < j < |q| && q[i].Execute?
    ensures !q[j].Declare? && !q[j].Limits? && !(q[j].Custom? && q[j].token / 2048 == 3)
  {
    var sh, code := ShaderOf(c, pixel, contract), CodeWords(data, c.code);
    ExecutingStays(sh, bindings, code, q, i, j);
    LegalAt(sh, bindings, code, q, j);
  }

  predicate Returns(i: Instruction) { i.Execute? && (Opcode(i.token) == 62 || Opcode(i.token) == 63) }

  predicate ReturnsBy(q: seq<Instruction>, n: nat)
    requires n <= |q|
  {
    exists i :: 0 <= i < n && Returns(q[i])
  }

  lemma ReturnNext(q: seq<Instruction>, n: nat)
    requires n < |q|
    ensures ReturnsBy(q, n + 1) <==> ReturnsBy(q, n) || Returns(q[n])
  {
    if ReturnsBy(q, n) {
      var i :| 0 <= i < n && Returns(q[i]);
      assert i < n + 1;
    }
  }

  lemma {:induction false} ExitsCount(sh: Shader, bindings: seq<Binding>, code: seq<Word>, q: seq<Instruction>, n: nat)
    requires Legal(sh, bindings, code, q) && n <= |q|
    ensures StateAt(sh, bindings, q, n).exits > 0 <==> ReturnsBy(q, n)
    ensures StateAt(sh, bindings, q, n).count == n
  {
    if n > 0 {
      ExitsCount(sh, bindings, code, q, n - 1);
      LegalAt(sh, bindings, code, q, n - 1);
      ReturnNext(q, n - 1);
    }
  }

  lemma ProgramReturns(sh: Shader, bindings: seq<Binding>, code: seq<Word>, q: seq<Instruction>) returns (i: nat)
    requires IsProgram(sh, bindings, code, q)
    ensures i < |q| && Returns(q[i]) && |q| <= 65536
  {
    ExitsCount(sh, bindings, code, q, |q|);
    i :| 0 <= i < |q| && Returns(q[i]);
    ExitsCount(sh, bindings, code, q, |q| - 1);
    LegalAt(sh, bindings, code, q, |q| - 1);
  }

  /** An accepted shader returns somewhere, and has at most 65536 instructions. */
  lemma ReturnsSomewhere(
    data: seq<Byte>, pixel: bool, c: Container.Container, bindings: seq<Binding>, q: seq<Instruction>, contract: Contract)
    returns (i: nat)
    requires IsShader(data, pixel, c, bindings, q, contract)
    ensures i < |q| && Returns(q[i]) && contract.instructionCount == |q| <= 65536
  {
    i := ProgramReturns(ShaderOf(c, pixel, contract), bindings, CodeWords(data, c.code), q);
  }

  lemma RecordMasks(s: seq<Byte>, tag: Word, r: Signature.Record)
    requires |s| >= 8 && Signature.RecordOk(s, tag, true, r)
    ensures r.mask in {7, 15} && r.neverWrites in {0, 8}
  {
  }

  lemma SignatureMasks(s: seq<Byte>, tag: Word, masks: seq<Byte>, never: seq<Byte>, g: nat)
    requires Signature.SignatureOk(s, tag, true) && Signature.Publishes(s, tag, WordAt(s, 0), masks, never) && g < WordAt(s, 0)
    ensures g < |masks| == |never| && masks[g] in {7, 15} && never[g] in {0, 8}
  {
    Signature.TargetsContiguous(s, tag, g);
    var i :| 0 <= i < WordAt(s, 0) && Signature.RecordAt(s, tag, true, i).register == g;
    RecordMasks(s, tag, Signature.RecordAt(s, tag, true, i));
  }

  /** An accepted pixel shader has one target or two, each of which writes at least its three colour components. */
  lemma TargetMasks(
    data: seq<Byte>, c: Container.Container, bindings: seq<Binding>, q: seq<Instruction>, contract: Contract, g: nat)
    requires IsShader(data, true, c, bindings, q, contract) && g < contract.targetCount
    ensures contract.targetCount in {1, 2} && g < |contract.componentMasks| == |contract.neverWritesMasks|
    ensures contract.componentMasks[g] in {7, 15} && contract.neverWritesMasks[g] in {0, 8}
  {
    SignatureMasks(Payload(data, c.output), c.output.tag, contract.componentMasks, contract.neverWritesMasks, g);
  }

  // --- What is certainly accepted ---

  const REGISTER_TOKEN: Word := OperandToken(2, 0, 15, 0, 0, 1, 0, 0, 0, false)

  /** Register r0 with all components. */
  const REGISTER := Operand(REGISTER_TOKEN, [], [], [Literal(0)])

  predicate Plain(op: nat)
  {
    && Operands(op).Some?
    && !(Control.Opens(op) || Control.Closes(op) || op == Control.ELSE || Control.Labels(op) || Control.Breaks(op) || Control.Continues(op))
  }

  function PlainToken(op: nat): Word
    requires Plain(op)
  {
    op + 0x100_0000 * (1 + 2 * Operands(op).value)
  }

  /** The instruction with all its operands in r0. */
  function PlainInstruction(op: nat): Instruction
    requires Plain(op)
  {
    Execute(PlainToken(op), [], seq(Operands(op).value, _ => REGISTER))
  }

  /** Its words stand at `pos`. */
  predicate SpelledAt(code: seq<Word>, pos: nat, op: nat)
    requires Plain(op)
  {
    && pos + 1 + 2 * Operands(op).value <= |code| && code[pos] == PlainToken(op)
    && forall k :: 0 <= k < Operands(op).value ==> code[pos + 1 + 2 * k] == REGISTER_TOKEN && code[pos + 2 + 2 * k] == 0
  }

  lemma RegisterSpelled(code: seq<Word>, pos: nat)
    requires pos + 2 <= |code| && code[pos] == REGISTER_TOKEN && code[pos + 1] == 0
    ensures Size(REGISTER) == 2 && Spells(REGISTER, code, pos)
  {
    OneIndex(Literal(0), code, pos + 1);
    assert code[pos + 1..pos + 1] == [];
  }

  lemma OneIndex(x: Index, code: seq<Word>, pos: nat)
    requires SpellsIndex(x, code, pos)
    ensures SizeOfIndices([x]) == SizeOfIndex(x) && SpellsIndices([x], code, pos)
  {
    IndicesSnoc([], x, code, pos);
    assert [] + [x] == [x];
  }

  lemma {:induction false} RegisterOffsets(ts: seq<Operand>, k: nat)
    requires k <= |ts| && Size(REGISTER) == 2 && forall i :: 0 <= i < |ts| ==> ts[i] == REGISTER
    ensures Layout.OffsetOf(Size, ts, k) == 2 * k
  {
    if k > 0 { RegisterOffsets(ts, k - 1); }
  }

  lemma RegisterSize()
    ensures Size(REGISTER) == 2
  {
    RegisterSpelled([REGISTER_TOKEN, 0], 0);
  }

  lemma RegistersSpelled(code: seq<Word>, pos: nat, ts: seq<Operand>)
    requires pos + 2 * |ts| <= |code| && forall i :: 0 <= i < |ts| ==> ts[i] == REGISTER
    requires forall k :: 0 <= k < |ts| ==> code[pos + 2 * k] == REGISTER_TOKEN && code[pos + 1 + 2 * k] == 0
    ensures SizeOfOperands(ts) == 2 * |ts| && SpellsOperands(ts, code, pos)
  {
    RegisterSize();
    RegisterOffsets(ts, |ts|);
    forall k: nat | k < |ts| ensures SpelledFrom(code, pos)(ts[k], k, Layout.OffsetOf(Size, ts, k)) {
      RegisterOffsets(ts, k);
      RegisterSpelled(code, pos + 2 * k);
    }
  }

  lemma PlainSpelled(code: seq<Word>, pos: nat, op: nat)
    requires Plain(op) && SpelledAt(code, pos, op)
    ensures SizeOf(PlainInstruction(op)) == 1 + 2 * Operands(op).value && SpellsInstruction(PlainInstruction(op), code, pos)
  {
    RegistersSpelled(code, pos + 1, PlainInstruction(op).operands);
    assert code[pos + 1..pos + 1] == [];
  }

  lemma RegisterOk(sh: Shader, bindings: seq<Binding>, destination: bool)
    ensures ExecuteOperandOk(sh, bindings, REGISTER, destination)
  {
    RegisterAccepted(sh, bindings, 0, 0, 15, 0, 0, 0, false);
    TokenFields(2, 0, 15, 0, 0, 1, 0, 0, 0, false);
  }

  lemma RegistersOk(sh: Shader, bindings: seq<Binding>, a: Arity, ts: seq<Operand>)
    requires a.Takes? && forall i :: 0 <= i < |ts| ==> ts[i] == REGISTER
    ensures Layout.Laid(Size, OperandRules(sh, bindings, a), ts)
  {
    forall k: nat | k < |ts| ensures OperandRules(sh, bindings, a)(ts[k], k, Layout.OffsetOf(Size, ts, k)) {
      RegisterOk(sh, bindings, k < a.destinations);
    }
  }

  lemma PlainFields(op: nat)
    requires Plain(op)
    ensures Opcode(PlainToken(op)) == op && Length(PlainToken(op)) == 1 + 2 * Operands(op).value && !Extended(PlainToken(op))
  {
    InstructionFields(op, 0, 1 + 2 * Operands(op).value, false);
  }

  lemma PlainOk(sh: Shader, s: Progress, op: nat)
    requires Plain(op) && s.count < 65536 && SizeOf(PlainInstruction(op)) == 1 + 2 * Operands(op).value
    ensures InstructionOk(sh, s, PlainInstruction(op))
  {
    PlainFields(op);
    OperandTable(op);
    RegistersOk(sh, s.bindings, ArityOf(op), PlainInstruction(op).operands);
  }

  predicate AllPlain(ops: seq<nat>) { forall i :: 0 <= i < |ops| ==> Plain(ops[i]) }

  function Instructions(ops: seq<nat>): seq<Instruction>
    requires AllPlain(ops)
  {
    seq(|ops|, i requires 0 <= i < |ops| => PlainInstruction(ops[i]))
  }

  /** The words behind the header spell the instructions, one after the other. */
  predicate SpelledList(code: seq<Word>, ops: seq<nat>)
    requires AllPlain(ops)
  {
    && PositionOf(Instructions(ops), |ops|) == |code|
    && forall i :: 0 <= i < |ops| ==> SpelledAt(code, PositionOf(Instructions(ops), i), ops[i])
  }

  lemma PlainAt(sh: Shader, bindings: seq<Binding>, code: seq<Word>, ops: seq<nat>, i: nat)
    requires AllPlain(ops) && SpelledList(code, ops) && i < |ops| <= 65536
    ensures var q := Instructions(ops); InstructionAt(sh, StateAt(sh, bindings, q, i), code, PositionOf(q, i), q[i])
  {
    var q := Instructions(ops);
    ShaderReader.CountIsLength(sh, bindings, q, i);
    PlainSpelled(code, PositionOf(q, i), ops[i]);
    PlainOk(sh, StateAt(sh, bindings, q, i), ops[i]);
    Layout.OffsetsGrow(SizeOf, q, i, |q|);
  }

  lemma {:induction false} PlainControl(ops: seq<nat>, n: nat)
    requires AllPlain(ops) && n <= |ops|
    ensures var opcodes := OpcodesTo(Instructions(ops), n); Control.Checks([], opcodes) && Control.Remaining([], opcodes) == []
  {
    if n > 0 {
      PlainControl(ops, n - 1);
      var op := ops[n - 1];
      PlainFields(op);
      Control.CheckLast([], OpcodesTo(Instructions(ops), n - 1), op);
    }
  }

  ghost predicate LegalHere(sh: Shader, bindings: seq<Binding>, code: seq<Word>, q: seq<Instruction>, k: nat)
  {
    k < |q| ==> Layout.FitsAt(SizeOf, Stepper(sh), InstructionsOf(sh, code), Start(bindings), q, k)
  }

  lemma PlainLegalHere(sh: Shader, bindings: seq<Binding>, code: seq<Word>, ops: seq<nat>, k: nat)
    requires AllPlain(ops) && SpelledList(code, ops) && |ops| <= 65536
    ensures LegalHere(sh, bindings, code, Instructions(ops), k)
  {
    if k < |ops| {
      PlainAt(sh, bindings, code, ops, k);
      FitsWhere(sh, InstructionsOf(sh, code), bindings, code, Instructions(ops), k);
    }
  }

  lemma FitsWhere(
    sh: Shader, fits: (Progress, Instruction, nat) -> bool, bindings: seq<Binding>, code: seq<Word>, q: seq<Instruction>, k: nat)
    requires k < |q| && InstructionAt(sh, StateAt(sh, bindings, q, k), code, PositionOf(q, k), q[k])
    requires fits == InstructionsOf(sh, code)
    ensures Layout.FitsAt(SizeOf, Stepper(sh), fits, Start(bindings), q, k)
  {
  }

  lemma PlainLegal(sh: Shader, bindings: seq<Binding>, code: seq<Word>, ops: seq<nat>)
    requires AllPlain(ops) && SpelledList(code, ops) && |ops| <= 65536
    ensures Legal(sh, bindings, code, Instructions(ops))
  {
    var q := Instructions(ops);
    forall k: nat ensures LegalHere(sh, bindings, code, q, k) {
      PlainLegalHere(sh, bindings, code, ops, k);
    }
    forall k: nat | k < |q| ensures Layout.FitsAt(SizeOf, Stepper(sh), InstructionsOf(sh, code), Start(bindings), q, k) {
      assert LegalHere(sh, bindings, code, q, k);
    }
    Layout.Thread(SizeOf, Stepper(sh), InstructionsOf(sh, code), Start(bindings), q);
  }

  lemma PlainComplete(sh: Shader, code: seq<Word>, ops: seq<nat>)
    requires !sh.pixel && AllPlain(ops) && Legal(sh, [], code, Instructions(ops)) && ops != [] && ops[|ops| - 1] == 62
    ensures Complete(sh, StateAt(sh, [], Instructions(ops), |ops|))
  {
    var q := Instructions(ops);
    PlainFields(62);
    assert Returns(q[|q| - 1]);
    ExitsCount(sh, [], code, q, |q|);
    NoBindings(sh, q, |q|);
  }

  lemma {:induction false} NoBindings(sh: Shader, q: seq<Instruction>, n: nat)
    requires n <= |q|
    ensures StateAt(sh, [], q, n).bindings == []
  {
    if n > 0 { NoBindings(sh, q, n - 1); }
  }

  /**
    Any list of plain instructions that ends in a return is accepted: whatever code
    spells it in a vertex shader is a program.
  */
  lemma PlainProgramsAccepted(sh: Shader, code: seq<Word>, ops: seq<nat>)
    requires !sh.pixel && AllPlain(ops) && SpelledList(code, ops) && 0 < |ops| <= 65536 && ops[|ops| - 1] == 62
    ensures IsProgram(sh, [], code, Instructions(ops))
  {
    PlainLegal(sh, [], code, ops);
    PlainControl(ops, |ops|);
    PlainComplete(sh, code, ops);
  }
}
