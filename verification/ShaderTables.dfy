/**
  The tables of the shader validator in plain numbers: opcodes, declarations,
  operand kinds, container tags and the bit fields of a token
  (src/rr_albedo_shader.h:21-33, 100-111, 254-266, 278-284, 337-358, 391-433).
*/
module ShaderTables {
  import opened ShaderBytes
  import opened ShaderResources
  import opened ShaderOperand
  import opened ShaderProgram
  import Control = ShaderControl
  import Container = ShaderContainer
  import Signature = ShaderSignature
  import opened KeyBits

  // --- Executable instructions ---

  /** The number of operands an executable instruction takes; none for an opcode that is not supported. */
  function Operands(op: nat): Option<nat>
  {
    if op in {2, 7, 10, 18, 21, 22, 23, 48, 58, 62} then Some(0)
    else if op in {3, 6, 8, 13, 31, 63, 76} then Some(1)
    else if op in {11, 12, 25, 26, 27, 28, 40, 43, 47, 54, 59, 64, 65, 66, 67, 68, 75, 86, 111,
                   121, 122, 123, 124, 125, 129, 130, 131, 134, 135, 136, 137, 141, 205} then Some(2)
    else if op in {0, 1, 14, 15, 16, 17, 24, 29, 30, 32, 33, 34, 36, 37, 39, 41, 42, 45, 49, 51, 52, 56, 57, 60, 61,
                   77, 79, 80, 83, 84, 85, 87, 110, 165, 203, 204} then Some(3)
    else if op in {35, 38, 46, 50, 55, 69, 78, 81, 82, 108, 109, 132, 133, 138, 139, 167} then Some(4)
    else if op in {70, 71, 72, 74, 126, 127, 140} then Some(5)
    else if op in {73, 128, 142} then Some(6)
    else None
  }

  /** How many of them are written. */
  function Written(op: nat): nat
  {
    if op in {2, 7, 10, 18, 21, 22, 23, 48, 58, 62} || op in {3, 6, 8, 13, 31, 63, 76} then 0
    else if op in {38, 77, 78, 81, 132, 133, 142} then 2
    else 1
  }

  /** The reader's table, opcode by opcode. */
  lemma OperandTable(op: nat)
    ensures ArityOf(op) == if Operands(op).None? then Unsupported else Takes(Operands(op).value, Written(op))
  {
  }

  /** The opcodes of control flow take a condition, a label or a selector, or nothing, and write nothing. */
  lemma ControlOperands(op: nat)
    requires Control.Opens(op) || Control.Closes(op) || op == Control.ELSE || Control.Labels(op) || Control.Breaks(op) || Control.Continues(op)
    ensures ArityOf(op) == Takes(if op in {Control.IF, Control.SWITCH, Control.CASE, Control.BREAK_C, Control.CONTINUE_C} then 1 else 0, 0)
  {
  }

  /** No opcode is both executed and declared, and none that writes to memory is either. */
  lemma OpcodesApart(op: nat)
    ensures ArityOf(op).Takes? ==> !DeclaresOperand(op) && !DeclaresLimits(op) && op != 53
    ensures 156 <= op <= 160 || op == 163 || op == 164 || op == 166 || 168 <= op <= 190 || op == 225 ==>
              ArityOf(op).Unsupported? && !DeclaresOperand(op) && !DeclaresLimits(op)
  {
  }

  // --- Declarations ---

  /** The operand kinds a declaration may name; none for an opcode that declares no operand. */
  function DeclaredKinds(op: nat): set<nat>
  {
    if op in {88, 161, 162} then {7}
    else if op == 89 then {8}
    else if op == 90 then {6}
    else if op in {95, 96, 97, 98, 99, 100} then {1, 11}
    else if op in {101, 102, 103} then {2}
    else if op == 91 then {0, 1, 2, 3, 4, 6, 7, 8, 9, 11, 13}
    else {}
  }

  /** The words behind the operand. */
  function WordsBehind(model51: bool, op: nat): nat
  {
    if op in {89} && model51 then 2
    else if op in {88, 162} then (if model51 then 2 else 1)
    else if op in {90, 161} then (if model51 then 1 else 0)
    else if op in {91, 96, 97, 99, 100, 102, 103} then 1
    else 0
  }

  /** An accepted declaration of an operand, in numbers. */
  lemma DeclarationTable(sh: Shader, s: Progress, i: Instruction)
    requires InstructionOk(sh, s, i) && i.Declare?
    ensures !s.executing && !Extended(i.token)
    ensures Kind(i.operand.token) in DeclaredKinds(Opcode(i.token))
    ensures |i.trailing| == WordsBehind(sh.model51, Opcode(i.token))
    ensures Length(i.token) == 1 + Size(i.operand) + |i.trailing|
  {
    assert OperandOk(sh, s.bindings, i.operand, 0, true);
  }

  /** Opcodes 92 to 94 and 107 declare nothing here; limits are declared by 104, 105 and 106 alone. */
  lemma DeclaringOpcodes(op: nat)
    ensures DeclaresOperand(op) <==> DeclaredKinds(op) != {}
    ensures DeclaresLimits(op) <==> op in {104, 105, 106}
    ensures DeclaresResource(op) <==> op in {88, 89, 90, 161, 162}
    ensures DeclaresOperand(op) ==> forall sh: Shader :: TrailingWords(sh, op) == WordsBehind(sh.model51, op)
  {
    assert DeclaresOperand(op) ==> op in {88, 89, 90, 91, 95, 96, 97, 98, 99, 100, 101, 102, 103, 161, 162};
    assert op in {88, 161, 162} ==> 7 in DeclaredKinds(op);
    assert op == 89 ==> 8 in DeclaredKinds(op);
    assert op == 90 ==> 6 in DeclaredKinds(op);
    assert op in {91, 95, 96, 97, 98, 99, 100} ==> 1 in DeclaredKinds(op);
    assert op in {101, 102, 103} ==> 2 in DeclaredKinds(op);
  }

  /** A declaration of limits is accepted exactly with these words; only flags 0xe800, and 0x80000 in 5.1, may be set. */
  lemma LimitsTable(sh: Shader, token: Word, words: seq<Word>)
    ensures LimitsOk(sh, token, words) <==>
              || (Opcode(token) == 104 && |words| == 1 && words[0] <= 4096)
              || (Opcode(token) == 105 && |words| == 3 && words[1] <= 4096 && words[2] <= 4)
              || (Opcode(token) == 106 && words == [] && FlagsAllowed(sh.model51, token))
  {
    FlagBits(sh, token);
  }

  predicate BitSet(w: Word, i: nat) { w / Power(i) % 2 == 1 }

  /** Of bits 11 to 23 only 11, 13, 14, 15 and, in model 5.1, 19 may be set. */
  predicate FlagsAllowed(model51: bool, token: Word)
  {
    forall i: nat :: 11 <= i < 24 && BitSet(token, i) ==> i in {11, 13, 14, 15} || (i == 19 && model51)
  }

  lemma HighPowers()
    ensures Power(11) == 0x800 && Power(12) == 0x1000 && Power(13) == 0x2000 && Power(14) == 0x4000 && Power(15) == 0x8000
    ensures Power(16) == 0x1_0000 && Power(17) == 0x2_0000 && Power(18) == 0x4_0000 && Power(19) == 0x8_0000
    ensures Power(20) == 0x10_0000 && Power(21) == 0x20_0000 && Power(22) == 0x40_0000 && Power(23) == 0x80_0000
  {
    assert Power(4) == 2 * Power(3) && Power(2) == 2 * Power(1);
    PowerSum(4, 4);
    PowerSum(8, 3);
  }

  lemma Twice(x: nat, m: nat)
    requires m == 4 || m == 8
    ensures x % (2 * m) == 0 <==> x % 2 == 0 && x / 2 % m == 0
  {
    var h := x / 2;
    var q := h / m;
    assert x == 2 * h + x % 2 && h == m * q + h % m;
    Quotient(2 * (h % m) + x % 2, 2 * m, q);
  }

  lemma TwoBits(x: nat)
    ensures x % 4 == 0 <==> x % 2 == 0 && x / 2 % 2 == 0
  {
    assert x == 2 * (x / 2) + x % 2;
  }

  lemma ThreeBits(x: nat)
    ensures x % 8 == 0 <==> x % 2 == 0 && x / 2 % 2 == 0 && x / 4 % 2 == 0
  {
    var h := x / 2;
    TwoBits(h);
    assert x / 4 == h / 2;
    Twice(x, 4);
  }

  lemma FourBits(x: nat)
    ensures x % 16 == 0 <==> x % 2 == 0 && x / 2 % 2 == 0 && x / 4 % 2 == 0 && x / 8 % 2 == 0
  {
    var h := x / 2;
    ThreeBits(h);
    assert x / 4 == h / 2 && x / 8 == h / 4;
    Twice(x, 8);
  }

  lemma FlagBits(sh: Shader, token: Word)
    ensures GlobalFlagsOk(sh, token) <==> FlagsAllowed(sh.model51, token)
  {
    HighPowers();
    var low, high := token / 0x1_0000, token / 0x10_0000;
    ThreeBits(low);
    FourBits(high);
    assert low / 2 == token / 0x2_0000 && low / 4 == token / 0x4_0000;
    assert high / 2 == token / 0x20_0000 && high / 4 == token / 0x40_0000 && high / 8 == token / 0x80_0000;
    if FlagsAllowed(sh.model51, token) {
      assert !BitSet(token, 12) && !BitSet(token, 16) && !BitSet(token, 17) && !BitSet(token, 18);
      assert !BitSet(token, 20) && !BitSet(token, 21) && !BitSet(token, 22) && !BitSet(token, 23);
      assert BitSet(token, 19) ==> sh.model51;
    }
  }

  // --- Operands ---

  /** The fields of an operand token, put together. */
  function OperandToken(
    components: nat, selection: nat, mask: nat, swizzle: nat, kind: nat, dimensions: nat, r0: nat, r1: nat, r2: nat, extended: bool): (w: Word)
    requires components < 4 && selection < 4 && mask < 16 && swizzle < 16 && kind < 0x100 && dimensions < 4 && r0 < 8 && r1 < 8 && r2 < 8
  {
    components + 4 * selection + 16 * mask + 0x100 * swizzle + 0x1000 * kind + 0x10_0000 * dimensions +
    0x40_0000 * r0 + 0x200_0000 * r1 + 0x1000_0000 * r2 + if extended then 0x8000_0000 else 0
  }

  /** The reader takes every field of a token from its own bits: components, selection and mask, */
  lemma TokenSelection(
    components: nat, selection: nat, mask: nat, swizzle: nat, kind: nat, dimensions: nat, r0: nat, r1: nat, r2: nat, extended: bool)
    requires components < 4 && selection < 4 && mask < 16 && swizzle < 16 && kind < 0x100 && dimensions < 4 && r0 < 8 && r1 < 8 && r2 < 8
    ensures var w := OperandToken(components, selection, mask, swizzle, kind, dimensions, r0, r1, r2, extended);
            && Components(w) == components && Selection(w) == selection
            && WriteMask(w) == if components == 1 then 1 else if components == 2 && selection == 0 then mask else 15
  {
    var w := OperandToken(components, selection, mask, swizzle, kind, dimensions, r0, r1, r2, extended);
    var k := kind + 0x100 * dimensions + 0x400 * r0 + 0x2000 * r1 + 0x1_0000 * r2 + if extended then 0x8_0000 else 0;
    Field(w, 0, 1, components, 4, selection + 4 * mask + 64 * swizzle + 0x400 * k);
    Field(w, components, 4, selection, 4, mask + 16 * swizzle + 0x100 * k);
    Field(w, components + 4 * selection, 16, mask, 16, swizzle + 0x10 * k);
  }

  /** kind and dimensions, */
  lemma TokenKind(
    components: nat, selection: nat, mask: nat, swizzle: nat, kind: nat, dimensions: nat, r0: nat, r1: nat, r2: nat, extended: bool)
    requires components < 4 && selection < 4 && mask < 16 && swizzle < 16 && kind < 0x100 && dimensions < 4 && r0 < 8 && r1 < 8 && r2 < 8
    ensures var w := OperandToken(components, selection, mask, swizzle, kind, dimensions, r0, r1, r2, extended);
            Kind(w) == kind && Dimensions(w) == dimensions
  {
    var w := OperandToken(components, selection, mask, swizzle, kind, dimensions, r0, r1, r2, extended);
    var r := r0 + 8 * r1 + 0x40 * r2 + if extended then 0x200 else 0;
    var low := components + 4 * selection + 16 * mask + 0x100 * swizzle;
    Field(w, low, 0x1000, kind, 0x100, dimensions + 4 * r);
    Field(w, low + 0x1000 * kind, 0x10_0000, dimensions, 4, r);
  }

  /** and the representations of its indices. */
  lemma TokenIndices(
    components: nat, selection: nat, mask: nat, swizzle: nat, kind: nat, dimensions: nat, r0: nat, r1: nat, r2: nat, extended: bool)
    requires components < 4 && selection < 4 && mask < 16 && swizzle < 16 && kind < 0x100 && dimensions < 4 && r0 < 8 && r1 < 8 && r2 < 8
    ensures var w := OperandToken(components, selection, mask, swizzle, kind, dimensions, r0, r1, r2, extended);
            && Representation(w, 0) == r0 && Representation(w, 1) == r1 && Representation(w, 2) == r2
            && (Extended(w) <==> extended)
  {
    var w := OperandToken(components, selection, mask, swizzle, kind, dimensions, r0, r1, r2, extended);
    var low := components + 4 * selection + 16 * mask + 0x100 * swizzle + 0x1000 * kind + 0x10_0000 * dimensions;
    var h := if extended then 1 else 0;
    Field(w, low, 0x40_0000, r0, 8, r1 + 8 * r2 + 0x40 * h);
    Field(w, low + 0x40_0000 * r0, 0x200_0000, r1, 8, r2 + 8 * h);
    Field(w, low + 0x40_0000 * r0 + 0x200_0000 * r1, 0x1000_0000, r2, 8, h);
  }

  lemma TokenFields(
    components: nat, selection: nat, mask: nat, swizzle: nat, kind: nat, dimensions: nat, r0: nat, r1: nat, r2: nat, extended: bool)
    requires components < 4 && selection < 4 && mask < 16 && swizzle < 16 && kind < 0x100 && dimensions < 4 && r0 < 8 && r1 < 8 && r2 < 8
    ensures var w := OperandToken(components, selection, mask, swizzle, kind, dimensions, r0, r1, r2, extended);
            && Components(w) == components && Selection(w) == selection && Kind(w) == kind && Dimensions(w) == dimensions
            && Representation(w, 0) == r0 && Representation(w, 1) == r1 && Representation(w, 2) == r2 && (Extended(w) <==> extended)
  {
    TokenSelection(components, selection, mask, swizzle, kind, dimensions, r0, r1, r2, extended);
    TokenKind(components, selection, mask, swizzle, kind, dimensions, r0, r1, r2, extended);
    TokenIndices(components, selection, mask, swizzle, kind, dimensions, r0, r1, r2, extended);
  }

  lemma Field(w: nat, low: nat, unit: nat, value: nat, size: nat, high: nat)
    requires low < unit && value < size && w == low + unit * (value + size * high)
    ensures w / unit % size == value
  {
    Quotient(low, unit, value + size * high);
    Quotient(value, size, high);
  }

  lemma Quotient(rest: nat, unit: nat, x: nat)
    requires rest < unit
    ensures (rest + unit * x) / unit == x && (rest + unit * x) % unit == rest
  {
    var w := rest + unit * x;
    var q := w / unit;
    assert w == unit * q + w % unit;
    if q < x { OneMore(unit, q, x); } else if x < q { OneMore(unit, x, q); }
  }

  lemma {:induction false} OneMore(unit: nat, x: nat, y: nat)
    requires x < y
    ensures unit * x + unit <= unit * y
  {
    assert unit * y == unit * (y - 1) + unit;
    if x + 1 < y { OneMore(unit, x, y - 1); }
  }

  /** The reader takes the opcode and the length of an instruction from their own bits. */
  lemma InstructionFields(op: nat, controls: nat, length: nat, extended: bool)
    requires op < 0x800 && controls < 0x2000 && length < 0x80
    ensures var w := op + 0x800 * controls + 0x100_0000 * length + if extended then 0x8000_0000 else 0;
            Opcode(w) == op && Length(w) == length && (w >= 0x8000_0000 <==> extended)
  {
    var h := if extended then 1 else 0;
    var w := op + 0x800 * controls + 0x100_0000 * length + 0x8000_0000 * h;
    Field(w, 0, 1, op, 0x800, controls + 0x2000 * (length + 0x80 * h));
    Field(w, op + 0x800 * controls, 0x100_0000, length, 0x80, h);
  }

  /** How many indices an operand has. */
  function IndexCount(model51: bool, declaration: bool, kind: nat): nat
  {
    if kind in {4, 11, 13} then 0
    else if kind == 3 then 2
    else if kind == 8 then (if model51 then 3 else 2)
    else if kind in {6, 7} && model51 then (if declaration then 3 else 2)
    else 1
  }

  /** An index is what its representation says; only registers 0, 1 and 3 stand inside one. */
  predicate IndexShape(t: Operand, i: nat)
    requires i < |t.indices|
  {
    i < 3 &&
    match t.indices[i]
    case Literal(_) => Representation(t.token, i) == 0
    case Relative(base) => Representation(t.token, i) == 2 && Kind(base.token) in {0, 1, 3}
    case Offset(_, base) => Representation(t.token, i) == 3 && Kind(base.token) in {0, 1, 3}
  }

  /** The shape of an accepted operand, in numbers. */
  lemma OperandShape(sh: Shader, bindings: seq<Binding>, t: Operand, nesting: nat, declaration: bool)
    requires OperandOk(sh, bindings, t, nesting, declaration)
    ensures nesting <= 4 && Kind(t.token) in {0, 1, 2, 3, 4, 6, 7, 8, 9, 11, 13} && |t.extensions| <= 2
    ensures |t.indices| == Dimensions(t.token) == IndexCount(sh.model51, declaration, Kind(t.token))
    ensures |t.immediate| == if Kind(t.token) != 4 then 0 else if Components(t.token) == 1 then 1 else 4
    ensures forall i :: 0 <= i < |t.indices| ==> IndexShape(t, i)
  {
    forall i | 0 <= i < |t.indices| ensures IndexShape(t, i) {
      assert IndexOk(sh, bindings, t.token, i, t.indices[i], nesting);
      if !t.indices[i].Literal? { assert BaseOk(sh, bindings, t.indices[i].base, nesting); }
    }
  }

  /** Plain registers and immediate values are accepted wherever an operand may stand, whatever they select. */
  lemma RegisterAccepted(sh: Shader, bindings: seq<Binding>, kind: nat, selection: nat, mask: nat, swizzle: nat, register: Word, nesting: nat, declaration: bool)
    requires kind in {0, 1, 9} && selection < 3 && mask < 16 && swizzle < 16 && nesting <= 4
    ensures OperandOk(sh, bindings, Operand(OperandToken(2, selection, mask, swizzle, kind, 1, 0, 0, 0, false), [], [], [Literal(register)]), nesting, declaration)
  {
    TokenFields(2, selection, mask, swizzle, kind, 1, 0, 0, 0, false);
  }

  lemma ImmediateAccepted(sh: Shader, bindings: seq<Binding>, selection: nat, words: seq<Word>, nesting: nat, declaration: bool)
    requires selection < 3 && (|words| == 1 || |words| == 4) && nesting <= 4
    ensures OperandOk(
              sh, bindings, Operand(OperandToken(if |words| == 1 then 1 else 2, selection, 0, 0, 4, 0, 0, 0, 0, false), [], words, []), nesting, declaration)
  {
    TokenFields(if |words| == 1 then 1 else 2, selection, 0, 0, 4, 0, 0, 0, 0, false);
  }

  /** A register indexed by a register is accepted one level above it. */
  lemma IndexedAccepted(sh: Shader, bindings: seq<Binding>, selection: nat, mask: nat, swizzle: nat, register: Word, base: Operand, nesting: nat, declaration: bool)
    requires selection < 3 && mask < 16 && swizzle < 16 && nesting < 4
    requires OperandOk(sh, bindings, base, nesting + 1, false) && Kind(base.token) in {0, 1, 3}
    ensures OperandOk(
              sh, bindings, Operand(OperandToken(2, selection, mask, swizzle, 3, 2, 0, 2, 0, false), [], [], [Literal(register), Relative(base)]), nesting, declaration)
  {
    var t := Operand(OperandToken(2, selection, mask, swizzle, 3, 2, 0, 2, 0, false), [], [], [Literal(register), Relative(base)]);
    TokenFields(2, selection, mask, swizzle, 3, 2, 0, 2, 0, false);
    assert BaseOk(sh, bindings, base, nesting);
    forall i | 0 <= i < 2 ensures IndexOk(sh, bindings, t.token, i, t.indices[i], nesting) {}
  }

  /** A word is an operand's extension exactly when it is a modifier: absolute value and negation, or in 5.1 resources also the non-uniform mark. */
  lemma ExtensionTable(nonUniform: bool, modifier: nat, mark: bool, more: bool)
    requires modifier < 0x100
    ensures var w: Word := 1 + 0x40 * modifier + (if mark then 0x2_0000 else 0) + if more then 0x8000_0000 else 0;
            && (ExtensionOk(OperandRule(nonUniform), w) <==> modifier in {0, 1, 2, 3} && (mark ==> nonUniform))
            && (Extended(w) <==> more)
  {
    var w := 1 + 0x40 * modifier + (if mark then 0x2_0000 else 0) + if more then 0x8000_0000 else 0;
    var m, h := if mark then 0x80 else 0, if more then 0x20_0000 else 0;
    assert w / 64 == modifier + 0x10 * m + 0x10 * h;
    assert w / 0x400 == modifier / 0x10 + m + h;
  }

  // --- Containers ---

  /** The tag that four characters spell. */
  function Tag(name: string): nat
    requires |name| == 4
  {
    name[0] as int + 0x100 * (name[1] as int) + 0x1_0000 * (name[2] as int) + 0x100_0000 * (name[3] as int)
  }

  /** The role of a chunk by its name. */
  lemma RoleTable(tag: Word)
    ensures Container.TAG_DXBC == Tag("DXBC")
    ensures Container.RoleOf(tag) == Container.Code <==> tag == Tag("SHDR") || tag == Tag("SHEX")
    ensures Container.RoleOf(tag) == Container.Output <==> tag == Tag("OSGN") || tag == Tag("OSG5") || tag == Tag("OSG1")
    ensures Container.RoleOf(tag) == Container.Resources <==> tag == Tag("RDEF")
    ensures Container.RoleOf(tag) == Container.Input <==> tag == Tag("ISGN") || tag == Tag("ISG1")
    ensures Container.RoleOf(tag) == Container.Ignored <==>
              tag == Tag("STAT") || tag == Tag("SDBG") || tag == Tag("SPDB") || tag == Tag("ILDN")
  {
  }

  // --- Resource bindings ---

  /** A record of the resource table in model 5.1: its operand class, and the registers it owns; no slots means all from the first on. */
  lemma BindingTable(r: Record, register: Word)
    requires SlotsOk(true, r.slot, r.slots)
    ensures KnownKind(r.kind) <==> r.kind in {0, 1, 2, 3, 5, 7}
    ensures var b := BindingOf(r);
            && b.operandType == (if r.kind == 0 then 8 else if r.kind == 3 then 6 else 7)
            && (b.first <= register <= b.last <==> r.slot <= register && (r.slots == 0 || register < r.slot + r.slots))
            && b.space == r.space && b.identifier == r.identifier && !b.declared && b.vectorCount == 0
            && b.structureStride == if r.kind == 5 then r.stride else 0
  {
  }

  lemma SlotsTable(model51: bool, slot: Word, slots: Word)
    ensures SlotsOk(model51, slot, slots) <==>
            if model51 then slot + slots <= 0x1_0000_0000 else 1 <= slots && slot + slots <= 4096
  {
  }

  // --- Destinations, custom data and signatures ---

  /** A destination is a temp, an indexable temp, null, or an output whose mask lies inside the signature's, and writes a mask or a scalar. */
  lemma DestinationTable(sh: Shader, t: Operand)
    requires Kind(t.token) == 2 && sh.pixel ==> IndexWord(t, 0) < |sh.masks|
    ensures DestinationOk(sh, t) <==>
              && Kind(t.token) in {0, 2, 3, 13}
              && (Kind(t.token) == 13 || Components(t.token) == 1 || (Components(t.token) == 2 && Selection(t.token) == 0))
              && (Kind(t.token) == 2 && sh.pixel ==> MaskWithin(WriteMask(t.token), sh.masks[IndexWord(t, 0)]))
  {
  }

  lemma FourBitValue(a: nat)
    requires a < 16
    ensures a == a % 2 + 2 * (a / 2 % 2) + 4 * (a / 4 % 2) + 8 * (a / 8 % 2)
  {
    assert a / 2 == a / 2 % 2 + 2 * (a / 4) && a / 4 == a / 4 % 2 + 2 * (a / 8) && a / 8 % 2 == a / 8;
  }

  /** A mask lies inside the full one, inside that of the first three components when it lacks the fourth, and inside itself alone both ways. */
  lemma MasksWithin(a: nat, b: nat)
    requires a < 16 && b < 16
    ensures MaskWithin(a, 15) && (MaskWithin(a, 7) <==> a < 8) && (MaskWithin(a, 0) <==> a == 0)
    ensures MaskWithin(a, b) && MaskWithin(b, a) ==> a == b
  {
    FourBitValue(a);
    FourBitValue(b);
  }

  /** Custom data gives its own length; only immediate constant buffers, of whole vectors, must precede the executable part. */
  lemma CustomTable(s: Progress, token: Word, body: seq<Word>)
    ensures CustomOk(s, token, body) <==>
              && Opcode(token) == 53 && |body| >= 1 && body[0] == |body| + 1
              && (token / 0x800 in {0, 1} || (token / 0x800 == 3 && !s.executing && (|body| + 3) % 4 == 0))
  {
    if |body| >= 1 { assert (|body| + 3) % 4 == (|body| - 1) % 4; }
  }

  lemma ExtensionLimits(nonUniform: bool)
    ensures Limit(OperandRule(nonUniform)) == 2 && Limit(InstructionRule) == 3
    ensures forall w: Word :: ExtensionOk(InstructionRule, w) <==> w % 64 in {1, 2, 3}
  {
  }

  /** The bytes of one signature record by the kind of signature. */
  lemma StrideTable()
    ensures Signature.Stride(Container.TAG_OSGN) == 24 && Signature.Stride(Container.TAG_OSG5) == 28 && Signature.Stride(Container.TAG_OSG1) == 32
    ensures RecordStride(true) == 40 && RecordStride(false) == 32 && VariableStride(5) == 40 && VariableStride(4) == 24
  {
  }

  /** A record of a pixel shader's signature is accepted exactly when it is a float target of three or four components. */
  lemma PixelRecordTable(s: seq<Byte>, tag: Word, r: Signature.Record)
    requires |s| >= 8
    ensures Signature.RecordOk(s, tag, true, r) <==>
              && r.stream == 0 && r.pad0 == 0 && r.pad1 == 0 && r.precision == 0
              && r.name >= WordAt(s, 4) + WordAt(s, 0) * Signature.Stride(tag)
              && HasString(s, r.name) && HasStringNamed(s, r.name, Signature.SV_TARGET)
              && r.system in {0, 64} && r.component == 3 && r.index == r.register && r.register < WordAt(s, 0)
              && r.mask in {7, 15} && r.neverWrites in {0, 8}
  {
  }

  /** The name asked for, in characters. */
  lemma TargetName()
    ensures |Signature.SV_TARGET| == 9 && forall i :: 0 <= i < 9 ==> Signature.SV_TARGET[i] == "SV_Target"[i] as int
  {
  }

  // --- What a 5.1 resource and an input declaration certainly pass ---

  /** A use of a declared 5.1 resource by its identifier, at a known register of its range, is accepted. */
  lemma ResourceAccepted(sh: Shader, bindings: seq<Binding>, k: nat, identifier: Word, register: Word, nesting: nat)
    requires sh.model51 && nesting <= 4 && Find(bindings, 7, identifier) == Some(k)
    requires bindings[k].declared && bindings[k].first <= register <= bindings[k].last
    ensures OperandOk(
              sh, bindings, Operand(OperandToken(2, 1, 14, 0, 7, 2, 0, 0, 0, false), [], [], [Literal(identifier), Literal(register)]), nesting, false)
  {
    var t := Operand(OperandToken(2, 1, 14, 0, 7, 2, 0, 0, 0, false), [], [], [Literal(identifier), Literal(register)]);
    TokenFields(2, 1, 14, 0, 7, 2, 0, 0, 0, false);
    forall i | 0 <= i < 2 ensures IndexOk(sh, bindings, t.token, i, t.indices[i], nesting) {}
  }

  /** The declaration of an input register, before anything is executed, is accepted. */
  lemma InputAccepted(sh: Shader, s: Progress, register: Word, trailing: seq<Word>, op: nat)
    requires s.count < 65536 && !s.executing && op in {95, 96, 97, 98, 99, 100} && |trailing| == WordsBehind(sh.model51, op)
    requires Size(Operand(OperandToken(2, 0, 15, 0, 1, 1, 0, 0, 0, false), [], [], [Literal(register)])) == 2
    ensures InstructionOk(
              sh, s, Declare(op + 0x100_0000 * (3 + |trailing|), Operand(OperandToken(2, 0, 15, 0, 1, 1, 0, 0, 0, false), [], [], [Literal(register)]), trailing))
  {
    InstructionFields(op, 0, 3 + |trailing|, false);
    TokenFields(2, 0, 15, 0, 1, 1, 0, 0, 0, false);
    RegisterAccepted(sh, s.bindings, 1, 0, 15, 0, register, 0, true);
    DeclaringOpcodes(op);
  }
}
