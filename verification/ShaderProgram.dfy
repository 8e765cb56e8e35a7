/**
  The instruction stream of a shader (src/rr_albedo_shader.h:336-484).

  A program is a list of instructions.  `InstructionOk` says what one may be when
  the instructions before it have led to some `Progress`; `IsProgram` says that a
  list is acceptable throughout and that its instructions tile the code words
  from word 2 to the end.  `ReadProgram` is the single pass that finds the list.
*/
module ShaderProgram {
  import opened ShaderBytes
  import opened ShaderResources
  import opened ShaderOperand
  import Control = ShaderControl
  import Signature = ShaderSignature
  import Layout

  const MAX_INSTRUCTIONS := 65536

  datatype Instruction =
    | Custom(token: Word, body: seq<Word>)
    | Limits(token: Word, words: seq<Word>)
    | Declare(token: Word, operand: Operand, trailing: seq<Word>)
    | Execute(token: Word, extensions: seq<Word>, operands: seq<Operand>)

  // What the reader remembers between instructions, its block stack apart.
  datatype Progress = Progress(
    count: nat, executing: bool, targets: set<nat>, exits: nat, bindings: seq<Binding>)

  function Opcode(token: Word): nat { token % 2048 }

  function Length(token: Word): nat { token / 0x100_0000 % 128 }

  // --- The operand table ---

  datatype Arity = Unsupported | Takes(operands: nat, destinations: nat)

  function ArityOf(op: nat): (a: Arity)
    ensures a.Takes? ==> a.destinations <= a.operands <= 6
    ensures op == 53 || DeclaresOperand(op) || DeclaresLimits(op) ==> a == Unsupported
  {
    if op == 2 || op == 7 || op == 10 || op == 18 || 21 <= op <= 23 || op == 48 || op == 58 || op == 62 then Takes(0, 0)
    else if op == 3 || op == 6 || op == 8 || op == 13 || op == 31 || op == 63 || op == 76 then Takes(1, 0)
    else if 11 <= op <= 12 || 25 <= op <= 28 || op == 40 || op == 43 || op == 47 || op == 54 || op == 59 ||
            64 <= op <= 68 || op == 75 || op == 86 || op == 111 || 121 <= op <= 125 || 129 <= op <= 131 ||
            134 <= op <= 137 || op == 141 || op == 205 then Takes(2, 1)
    else if 0 <= op <= 1 || 14 <= op <= 17 || op == 24 || 29 <= op <= 30 || 32 <= op <= 34 || 36 <= op <= 37 ||
            op == 39 || 41 <= op <= 42 || op == 45 || op == 49 || 51 <= op <= 52 || 56 <= op <= 57 ||
            60 <= op <= 61 || 79 <= op <= 80 || 83 <= op <= 85 || op == 87 || op == 110 || op == 165 ||
            203 <= op <= 204 then Takes(3, 1)
    else if op == 35 || op == 46 || op == 50 || op == 55 || op == 69 || op == 82 || 108 <= op <= 109 ||
            138 <= op <= 139 || op == 167 then Takes(4, 1)
    else if 70 <= op <= 72 || op == 74 || 126 <= op <= 127 || op == 140 then Takes(5, 1)
    else if op == 73 || op == 128 then Takes(6, 1)
    else if op == 77 then Takes(3, 2)
    else if op == 38 || op == 78 || op == 81 || 132 <= op <= 133 then Takes(4, 2)
    else if op == 142 then Takes(6, 2)
    else Unsupported
  }

  // --- Declarations ---

  predicate DeclaresLimits(op: nat) { 104 <= op <= 106 }

  predicate DeclaresOperand(op: nat)
  {
    88 <= op <= 91 || 95 <= op <= 103 || op == 161 || op == 162
  }

  predicate DeclaresResource(op: nat) { 88 <= op <= 90 || op == 161 || op == 162 }

  function TrailingWords(sh: Shader, op: nat): nat
  {
    if sh.model51 && DeclaresResource(op) then (if op == 90 || op == 161 then 1 else 2)
    else if op == 88 || op == 91 || op == 96 || op == 97 || 99 <= op <= 100 || 102 <= op <= 103 || op == 162 then 1
    else 0
  }

  /** Bits 11 to 23 of a global-flags token may only hold the flags in 0xe800 and, in model 5.1, 0x80000. */
  predicate GlobalFlagsOk(sh: Shader, token: Word)
  {
    && token / 0x1000 % 2 == 0
    && token / 0x1_0000 % 8 == 0
    && (sh.model51 || token / 0x8_0000 % 2 == 0)
    && token / 0x10_0000 % 16 == 0
  }

  predicate LimitsOk(sh: Shader, token: Word, words: seq<Word>)
  {
    match Opcode(token)
    case 104 => |words| == 1 && words[0] <= 4096
    case 105 => |words| == 3 && words[1] <= 4096 && words[2] <= 4
    case 106 => words == [] && GlobalFlagsOk(sh, token)
    case _ => false
  }

  /** A 5.1 resource declaration repeats its binding: range, space and type, once. */
  predicate DeclaresBinding(bindings: seq<Binding>, op: nat, t: Operand, trailing: seq<Word>)
    requires trailing != []
  {
    var found := Find(bindings, Kind(t.token), IndexWord(t, 0));
    found.Some? &&
    (var b := bindings[found.value];
     && !b.declared
     && b.space == trailing[|trailing| - 1]
     && b.first == IndexWord(t, 1) && b.last == IndexWord(t, 2)
     && (op == 88 ==> b.kind == 1 || b.kind == 2)
     && (op == 161 ==> b.kind == 7)
     && (op == 162 ==> b.kind == 5 && trailing[0] != 0 && trailing[0] % 4 == 0 && trailing[0] == b.structureStride)
     && (op == 89 ==> trailing[0] <= 4096))
  }

  predicate DeclarationOk(sh: Shader, s: Progress, op: nat, t: Operand, trailing: seq<Word>)
    requires DeclaresOperand(op) && |trailing| == TrailingWords(sh, op)
  {
    && (op == 88 || op == 161 || op == 162 ==> Kind(t.token) == RESOURCE)
    && (op == 89 ==> Kind(t.token) == CONSTANT_BUFFER)
    && (op == 90 ==> Kind(t.token) == SAMPLER)
    && (95 <= op <= 100 ==> Kind(t.token) == INPUT || Kind(t.token) == PRIMITIVE)
    && (sh.model51 && DeclaresResource(op) ==> DeclaresBinding(s.bindings, op, t, trailing))
    && (101 <= op <= 103 ==>
          && Kind(t.token) == OUTPUT && DestinationOk(sh, t)
          && (sh.pixel ==>
                && IndexWord(t, 0) !in s.targets
                && op == 101 && WriteMask(t.token) == sh.masks[IndexWord(t, 0)]))
  }

  // --- One instruction ---

  function SizeOfOperands(ts: seq<Operand>): nat { Layout.Extent(Size, ts) }

  function SizeOf(i: Instruction): (n: nat)
    ensures n >= 1
  {
    match i
    case Custom(_, body) => 1 + |body|
    case Limits(_, words) => 1 + |words|
    case Declare(_, t, trailing) => 1 + Size(t) + |trailing|
    case Execute(_, extensions, ts) => 1 + |extensions| + SizeOfOperands(ts)
  }

  ghost predicate SpellsOperands(ts: seq<Operand>, code: seq<Word>, pos: nat)
  {
    Layout.Laid(Size, SpelledFrom(code, pos), ts)
  }

  ghost function SpelledFrom(code: seq<Word>, pos: nat): (Operand, nat, nat) -> bool
  {
    (t: Operand, k: nat, offset: nat) => Spells(t, code, pos + offset)
  }

  ghost predicate SpellsInstruction(i: Instruction, code: seq<Word>, pos: nat)
  {
    && pos < |code| && code[pos] == i.token
    && match i
       case Custom(_, body) => SpellsWords(body, code, pos + 1)
       case Limits(_, words) => SpellsWords(words, code, pos + 1)
       case Declare(_, t, trailing) => Spells(t, code, pos + 1) && SpellsWords(trailing, code, pos + 1 + Size(t))
       case Execute(_, extensions, ts) =>
         SpellsWords(extensions, code, pos + 1) && SpellsOperands(ts, code, pos + 1 + |extensions|)
  }

  predicate ExecuteOperandOk(sh: Shader, bindings: seq<Binding>, t: Operand, destination: bool)
  {
    && OperandOk(sh, bindings, t, 0, false)
    && if destination then DestinationOk(sh, t) else Kind(t.token) != NULL
  }

  /** The destinations come first. */
  ghost function OperandRules(sh: Shader, bindings: seq<Binding>, a: Arity): (Operand, nat, nat) -> bool
    requires a.Takes?
  {
    (t: Operand, k: nat, offset: nat) => ExecuteOperandOk(sh, bindings, t, k < a.destinations)
  }

  predicate CustomOk(s: Progress, token: Word, body: seq<Word>)
  {
    && Opcode(token) == 53
    && body != [] && body[0] == 1 + |body|
    && (token / 2048 == 0 || token / 2048 == 1 ||
        (token / 2048 == 3 && (|body| - 1) % 4 == 0 && !s.executing))
  }

  ghost predicate InstructionOk(sh: Shader, s: Progress, i: Instruction)
  {
    && s.count < MAX_INSTRUCTIONS
    && match i
       case Custom(token, body) => CustomOk(s, token, body)
       case Limits(token, words) =>
         Length(token) == SizeOf(i) && !Extended(token) && !s.executing && LimitsOk(sh, token, words)
       case Declare(token, t, trailing) =>
         && Length(token) == SizeOf(i) && !Extended(token) && !s.executing
         && DeclaresOperand(Opcode(token))
         && OperandOk(sh, s.bindings, t, 0, true)
         && |trailing| == TrailingWords(sh, Opcode(token))
         && DeclarationOk(sh, s, Opcode(token), t, trailing)
       case Execute(token, extensions, ts) =>
         var arity := ArityOf(Opcode(token));
         && Length(token) == SizeOf(i)
         && ExtensionsOk(InstructionRule, token, extensions)
         && arity.Takes? && |ts| == arity.operands
         && Layout.Laid(Size, OperandRules(sh, s.bindings, arity), ts)
  }

  function Next(sh: Shader, s: Progress, i: Instruction): Progress
  {
    match i
    case Custom(_, _) => s.(count := s.count + 1)
    case Limits(_, _) => s.(count := s.count + 1)
    case Declare(token, t, trailing) =>
      s.(count := s.count + 1,
         targets := if 101 <= Opcode(token) <= 103 && sh.pixel then s.targets + {IndexWord(t, 0)} else s.targets,
         bindings := if sh.model51 && DeclaresResource(Opcode(token)) && trailing != []
                     then MarkDeclared(s.bindings, Opcode(token), t, trailing) else s.bindings)
    case Execute(token, _, _) =>
      s.(count := s.count + 1, executing := true,
         exits := if Opcode(token) == 62 || Opcode(token) == 63 then s.exits + 1 else s.exits)
  }

  function MarkDeclared(bindings: seq<Binding>, op: nat, t: Operand, trailing: seq<Word>): seq<Binding>
    requires trailing != []
  {
    var found := Find(bindings, Kind(t.token), IndexWord(t, 0));
    if found.None? then bindings
    else
      var b := bindings[found.value];
      bindings[found.value := b.(declared := true, vectorCount := if op == 89 then trailing[0] else b.vectorCount)]
  }

  // --- The whole program ---

  function Start(bindings: seq<Binding>): Progress { Progress(0, false, {}, 0, bindings) }

  ghost function Stepper(sh: Shader): (Progress, Instruction) -> Progress
  {
    (s: Progress, i: Instruction) => Next(sh, s, i)
  }

  /** What the first `i` instructions of `q` lead to. */
  ghost function StateAt(sh: Shader, bindings: seq<Binding>, q: seq<Instruction>, i: nat): Progress
    requires i <= |q|
  {
    Layout.StateOf(Stepper(sh), Start(bindings), q, i)
  }

  /** Where instruction `i` starts; the first two words are the version and the length. */
  function PositionOf(q: seq<Instruction>, i: nat): nat
    requires i <= |q|
  {
    2 + Layout.OffsetOf(SizeOf, q, i)
  }

  /** The opcodes of the executable instructions among the first `n`, in order. */
  function OpcodesTo(q: seq<Instruction>, n: nat): seq<nat>
    requires n <= |q|
  {
    if n == 0 then []
    else OpcodesTo(q, n - 1) + if q[n - 1].Execute? then [Opcode(q[n - 1].token)] else []
  }

  function Opcodes(q: seq<Instruction>): seq<nat> { OpcodesTo(q, |q|) }

  ghost function InstructionsOf(sh: Shader, code: seq<Word>): (Progress, Instruction, nat) -> bool
  {
    (s: Progress, i: Instruction, offset: nat) => InstructionAt(sh, s, code, 2 + offset, i)
  }

  /** Every instruction is acceptable after those before it and stands right behind them. */
  ghost predicate Legal(sh: Shader, bindings: seq<Binding>, code: seq<Word>, q: seq<Instruction>)
  {
    Layout.Threaded(SizeOf, Stepper(sh), InstructionsOf(sh, code), Start(bindings), q)
  }

  lemma LegalAt(sh: Shader, bindings: seq<Binding>, code: seq<Word>, q: seq<Instruction>, k: nat)
    requires Legal(sh, bindings, code, q) && k < |q|
    ensures InstructionAt(sh, StateAt(sh, bindings, q, k), code, PositionOf(q, k), q[k])
    ensures StateAt(sh, bindings, q, k + 1) == Next(sh, StateAt(sh, bindings, q, k), q[k])
    ensures PositionOf(q, k + 1) == PositionOf(q, k) + SizeOf(q[k])
  {
    Layout.ThreadAt(SizeOf, Stepper(sh), InstructionsOf(sh, code), Start(bindings), q, k);
  }

  predicate Complete(sh: Shader, s: Progress)
  {
    && s.exits > 0
    && (sh.pixel ==> s.targets == Signature.AllTargets(sh.targetCount))
    && forall k :: 0 <= k < |s.bindings| ==> s.bindings[k].declared
  }

  ghost predicate IsProgram(sh: Shader, bindings: seq<Binding>, code: seq<Word>, q: seq<Instruction>)
  {
    && Legal(sh, bindings, code, q)
    && PositionOf(q, |q|) == |code|
    && Control.Balanced(Opcodes(q))
    && Complete(sh, StateAt(sh, bindings, q, |q|))
  }

  // --- Reading one instruction ---

  ghost predicate InstructionAt(sh: Shader, s: Progress, code: seq<Word>, pos: nat, i: Instruction)
  {
    InstructionOk(sh, s, i) && SpellsInstruction(i, code, pos) && pos + SizeOf(i) <= |code|
  }

  ghost predicate ExecuteOperandAt(
    sh: Shader, bindings: seq<Binding>, code: seq<Word>, pos: nat, end: nat, destination: bool, t: Operand)
  {
    && OperandAt(sh, bindings, code, pos, end, 0, false, t)
    && if destination then DestinationOk(sh, t) else Kind(t.token) != NULL
  }

  method ReadExecuteOperand(sh: Shader, bindings: seq<Binding>, code: seq<Word>, pos: nat, end: nat, destination: bool)
    returns (r: Option<Operand>)
    requires end <= |code|
    ensures r.Some? ==> ExecuteOperandAt(sh, bindings, code, pos, end, destination, r.value)
    ensures forall t :: ExecuteOperandAt(sh, bindings, code, pos, end, destination, t) ==> r == Some(t)
  {
    var t := ReadOperand(sh, bindings, code, pos, end, 0, false);
    if t.None? { return None; }
    forall u | ExecuteOperandAt(sh, bindings, code, pos, end, destination, u) ensures u == t.value {
      OperandUnique(sh, bindings, u, t.value, 0, false, code, pos);
    }
    if destination && !DestinationOk(sh, t.value) { return None; }
    if !destination && Kind(t.value.token) == NULL { return None; }
    return t;
  }

  ghost function OperandsFrom(
    sh: Shader, bindings: seq<Binding>, code: seq<Word>, pos: nat, end: nat, a: Arity): (Operand, nat, nat) -> bool
    requires a.Takes?
  {
    (t: Operand, k: nat, offset: nat) =>
      ExecuteOperandAt(sh, bindings, code, pos + offset, end, k < a.destinations, t)
  }

  /** A list of `n` acceptable operands stands at `pos`. */
  ghost predicate OperandsAt(
    sh: Shader, bindings: seq<Binding>, code: seq<Word>, pos: nat, end: nat, a: Arity, n: nat, ts: seq<Operand>)
    requires a.Takes?
  {
    |ts| == n && Layout.Laid(Size, OperandsFrom(sh, bindings, code, pos, end, a), ts)
  }

  lemma OperandsDecide(sh: Shader, bindings: seq<Binding>, code: seq<Word>, pos: nat, end: nat, a: Arity)
    requires a.Takes?
    ensures Layout.Decides(OperandsFrom(sh, bindings, code, pos, end, a))
  {
    var fits := OperandsFrom(sh, bindings, code, pos, end, a);
    forall x, y, k: nat, offset: nat | fits(x, k, offset) && fits(y, k, offset) ensures x == y {
      assert ExecuteOperandAt(sh, bindings, code, pos + offset, end, k < a.destinations, x);
      assert ExecuteOperandAt(sh, bindings, code, pos + offset, end, k < a.destinations, y);
      OperandUnique(sh, bindings, x, y, 0, false, code, pos + offset);
    }
  }

  /** A list that cannot be continued rules out every longer one. */
  lemma NoOperands(
    sh: Shader, bindings: seq<Binding>, code: seq<Word>, pos: nat, end: nat, a: Arity, ts: seq<Operand>, us: seq<Operand>)
    requires a.Takes? && |ts| < |us|
    requires OperandsAt(sh, bindings, code, pos, end, a, |ts|, ts) && OperandsAt(sh, bindings, code, pos, end, a, |us|, us)
    ensures ExecuteOperandAt(sh, bindings, code, pos + SizeOfOperands(ts), end, |ts| < a.destinations, us[|ts|])
  {
    OperandsDecide(sh, bindings, code, pos, end, a);
    Layout.Agree(Size, OperandsFrom(sh, bindings, code, pos, end, a), ts, us, |ts|);
    Layout.InPlace(Size, OperandsFrom(sh, bindings, code, pos, end, a), us, |ts|);
  }

  method ReadOperands(sh: Shader, bindings: seq<Binding>, code: seq<Word>, pos: nat, end: nat, a: Arity)
    returns (r: Option<seq<Operand>>)
    requires pos <= end <= |code| && a.Takes?
    ensures r.Some? ==> OperandsAt(sh, bindings, code, pos, end, a, a.operands, r.value)
    ensures r.None? ==> forall ts :: !OperandsAt(sh, bindings, code, pos, end, a, a.operands, ts)
  {
    var ts: seq<Operand> := [];
    var cursor := pos;
    while |ts| < a.operands
      invariant |ts| <= a.operands && cursor == pos + SizeOfOperands(ts)
      invariant OperandsAt(sh, bindings, code, pos, end, a, |ts|, ts)
      decreases a.operands - |ts|
    {
      var t := ReadExecuteOperand(sh, bindings, code, cursor, end, |ts| < a.destinations);
      if t.None? {
        forall us ensures !OperandsAt(sh, bindings, code, pos, end, a, a.operands, us) {
          if OperandsAt(sh, bindings, code, pos, end, a, a.operands, us) {
            NoOperands(sh, bindings, code, pos, end, a, ts, us);
          }
        }
        return None;
      }
      Layout.Append(Size, OperandsFrom(sh, bindings, code, pos, end, a), ts, t.value);
      ts := ts + [t.value];
      cursor := pos + SizeOfOperands(ts);
    }
    return Some(ts);
  }

  method ReadCustom(sh: Shader, s: Progress, code: seq<Word>, pos: nat) returns (r: Option<Instruction>)
    requires pos < |code| && s.count < MAX_INSTRUCTIONS && Opcode(code[pos]) == 53
    ensures r.Some? ==> InstructionAt(sh, s, code, pos, r.value)
    ensures r.None? ==> forall i :: !InstructionAt(sh, s, code, pos, i)
  {
    var token, kind := code[pos], code[pos] / 2048;
    forall i | InstructionAt(sh, s, code, pos, i)
      ensures i.Custom? && pos + 1 < |code| && code[pos + 1] == 1 + |i.body|
    {
      if i.Custom? { SpelledWord(i.body, code, pos + 1); }
    }
    if pos + 1 >= |code| { return None; }
    var count := code[pos + 1];
    if count < 2 || count > |code| - pos || !(kind == 0 || kind == 1 || kind == 3) ||
       (kind == 3 && (count - 2) % 4 != 0) {
      return None;
    }
    if kind == 3 && s.executing { return None; }
    return Some(Custom(token, code[pos + 1..pos + count]));
  }

  lemma LimitsOnly(sh: Shader, s: Progress, code: seq<Word>, pos: nat, i: Instruction)
    requires InstructionAt(sh, s, code, pos, i) && DeclaresLimits(Opcode(code[pos]))
    ensures i.Limits? && pos + Length(code[pos]) <= |code| && i.words == code[pos + 1..pos + Length(code[pos])]
  {
  }

  /** A limit or flags declaration: a fixed number of plain words. */
  method ReadLimits(sh: Shader, s: Progress, code: seq<Word>, pos: nat, end: nat) returns (r: Option<Instruction>)
    requires pos < end <= |code| && end == pos + Length(code[pos]) && s.count < MAX_INSTRUCTIONS
    requires !Extended(code[pos]) && !s.executing && DeclaresLimits(Opcode(code[pos]))
    ensures r.Some? ==> InstructionAt(sh, s, code, pos, r.value)
    ensures r.None? ==> forall i :: !InstructionAt(sh, s, code, pos, i)
  {
    var token, words := code[pos], code[pos + 1..end];
    forall i | InstructionAt(sh, s, code, pos, i) ensures i == Limits(token, words) {
      LimitsOnly(sh, s, code, pos, i);
    }
    if !LimitsOk(sh, token, words) { return None; }
    return Some(Limits(token, words));
  }

  lemma DeclareOnly(sh: Shader, s: Progress, code: seq<Word>, pos: nat, end: nat, i: Instruction)
    requires InstructionAt(sh, s, code, pos, i) && DeclaresOperand(Opcode(code[pos]))
    requires end == pos + Length(code[pos])
    ensures i.Declare? && OperandAt(sh, s.bindings, code, pos + 1, end, 0, true, i.operand)
    ensures end <= |code| && pos + 1 + Size(i.operand) <= end
    ensures i.trailing == code[pos + 1 + Size(i.operand)..end] && |i.trailing| == TrailingWords(sh, Opcode(code[pos]))
    ensures DeclarationOk(sh, s, Opcode(code[pos]), i.operand, i.trailing)
  {
  }

  /** A declaration of one operand, with its trailing words. */
  method ReadDeclaration(sh: Shader, s: Progress, code: seq<Word>, pos: nat, end: nat) returns (r: Option<Instruction>)
    requires pos < end <= |code| && end == pos + Length(code[pos]) && s.count < MAX_INSTRUCTIONS
    requires !Extended(code[pos]) && !s.executing && DeclaresOperand(Opcode(code[pos]))
    ensures r.Some? ==> InstructionAt(sh, s, code, pos, r.value)
    ensures r.None? ==> forall i :: !InstructionAt(sh, s, code, pos, i)
  {
    var token, op, cursor := code[pos], Opcode(code[pos]), pos + 1;
    var t := ReadOperand(sh, s.bindings, code, cursor, end, 0, true);
    if t.None? {
      NoDeclaration(sh, s, code, pos, cursor, end, t);
      return None;
    }
    forall u | OperandAt(sh, s.bindings, code, cursor, end, 0, true, u) ensures u == t.value {
      OperandUnique(sh, s.bindings, u, t.value, 0, true, code, cursor);
    }
    var trailing := code[cursor + Size(t.value)..end];
    if |trailing| != TrailingWords(sh, op) || !DeclarationOk(sh, s, op, t.value, trailing) {
      NoDeclaration(sh, s, code, pos, cursor, end, t);
      return None;
    }
    r := Some(Declare(token, t.value, trailing));
    DeclareFits(sh, s, code, pos, end, r.value);
  }

  /** No operand makes an acceptable declaration, so no instruction is there. */
  lemma NoDeclaration(sh: Shader, s: Progress, code: seq<Word>, pos: nat, cursor: nat, end: nat, t: Option<Operand>)
    requires pos < end <= |code| && end == pos + Length(code[pos]) && DeclaresOperand(Opcode(code[pos]))
    requires cursor == pos + 1
    requires forall u :: OperandAt(sh, s.bindings, code, cursor, end, 0, true, u) ==> t == Some(u)
    requires t.Some? ==>
               var from := cursor + Size(t.value);
               from > end || |code[from..end]| != TrailingWords(sh, Opcode(code[pos])) ||
               !DeclarationOk(sh, s, Opcode(code[pos]), t.value, code[from..end])
    ensures forall i :: !InstructionAt(sh, s, code, pos, i)
  {
    forall i ensures !InstructionAt(sh, s, code, pos, i) {
      if InstructionAt(sh, s, code, pos, i) {
        DeclareOnly(sh, s, code, pos, end, i);
      }
    }
  }

  lemma DeclareFits(sh: Shader, s: Progress, code: seq<Word>, pos: nat, end: nat, i: Instruction)
    requires pos < end <= |code| && end == pos + Length(code[pos]) && s.count < MAX_INSTRUCTIONS
    requires !Extended(code[pos]) && !s.executing && DeclaresOperand(Opcode(code[pos]))
    requires i.Declare? && i.token == code[pos] && OperandAt(sh, s.bindings, code, pos + 1, end, 0, true, i.operand)
    requires i.trailing == code[pos + 1 + Size(i.operand)..end] && |i.trailing| == TrailingWords(sh, Opcode(i.token))
    requires DeclarationOk(sh, s, Opcode(i.token), i.operand, i.trailing)
    ensures InstructionAt(sh, s, code, pos, i)
  {
  }

  lemma ExecuteOnly(sh: Shader, s: Progress, code: seq<Word>, pos: nat, end: nat, extensions: seq<Word>, i: Instruction)
    requires InstructionAt(sh, s, code, pos, i) && end == pos + Length(code[pos])
    requires ExtensionsOk(InstructionRule, code[pos], extensions) && SpellsWords(extensions, code, pos + 1)
    requires Opcode(code[pos]) != 53 && !DeclaresLimits(Opcode(code[pos])) && !DeclaresOperand(Opcode(code[pos]))
    ensures i.Execute? && i.extensions == extensions && ArityOf(Opcode(code[pos])).Takes?
    ensures var arity := ArityOf(Opcode(code[pos]));
            OperandsAt(sh, s.bindings, code, pos + 1 + |extensions|, end, arity, arity.operands, i.operands)
    ensures pos + 1 + |extensions| + SizeOfOperands(i.operands) == end
  {
    ExtensionsUnique(InstructionRule, code[pos], i.extensions, extensions, code, pos + 1);
    OperandsFromParts(sh, s.bindings, code, pos + 1 + |extensions|, end, ArityOf(Opcode(code[pos])), i.operands);
  }

  /** Operands that are acceptable and spelled within the instruction are operands at that place, and conversely. */
  lemma OperandsFromParts(
    sh: Shader, bindings: seq<Binding>, code: seq<Word>, pos: nat, end: nat, a: Arity, ts: seq<Operand>)
    requires a.Takes? && pos + SizeOfOperands(ts) <= end
    ensures OperandsAt(sh, bindings, code, pos, end, a, |ts|, ts) <==>
            SpellsOperands(ts, code, pos) && Layout.Laid(Size, OperandRules(sh, bindings, a), ts)
  {
    var f, g, h := SpelledFrom(code, pos), OperandRules(sh, bindings, a), OperandsFrom(sh, bindings, code, pos, end, a);
    forall x, k: nat, offset: nat
      ensures h(x, k, offset) <==> f(x, k, offset) && g(x, k, offset) && offset + Size(x) <= end - pos
    {
      assert f(x, k, offset) <==> Spells(x, code, pos + offset);
      assert g(x, k, offset) <==> ExecuteOperandOk(sh, bindings, x, k < a.destinations);
      assert h(x, k, offset) <==> ExecuteOperandAt(sh, bindings, code, pos + offset, end, k < a.destinations, x);
    }
    if SpellsOperands(ts, code, pos) && Layout.Laid(Size, g, ts) {
      Layout.Combine(Size, f, g, h, ts, end - pos);
    }
    if Layout.Laid(Size, h, ts) {
      Layout.Weaken(Size, h, f, ts);
      Layout.Weaken(Size, h, g, ts);
    }
  }

  lemma ExecuteFits(sh: Shader, s: Progress, code: seq<Word>, pos: nat, end: nat, i: Instruction)
    requires pos < end <= |code| && end == pos + Length(code[pos]) && s.count < MAX_INSTRUCTIONS
    requires i.Execute? && i.token == code[pos] && ExtensionsOk(InstructionRule, i.token, i.extensions)
    requires SpellsWords(i.extensions, code, pos + 1) && ArityOf(Opcode(i.token)).Takes?
    requires pos + 1 + |i.extensions| + SizeOfOperands(i.operands) == end
    requires OperandsAt(sh, s.bindings, code, pos + 1 + |i.extensions|, end,
                        ArityOf(Opcode(i.token)), ArityOf(Opcode(i.token)).operands, i.operands)
    ensures InstructionAt(sh, s, code, pos, i)
  {
    OperandsFromParts(sh, s.bindings, code, pos + 1 + |i.extensions|, end, ArityOf(Opcode(i.token)), i.operands);
  }

  method ReadExecutable(sh: Shader, s: Progress, code: seq<Word>, pos: nat, end: nat, extensions: seq<Word>)
    returns (r: Option<Instruction>)
    requires pos < end <= |code| && end == pos + Length(code[pos]) && s.count < MAX_INSTRUCTIONS
    requires ExtensionsOk(InstructionRule, code[pos], extensions) && SpellsWords(extensions, code, pos + 1)
    requires pos + 1 + |extensions| <= end
    requires Opcode(code[pos]) != 53 && !DeclaresLimits(Opcode(code[pos])) && !DeclaresOperand(Opcode(code[pos]))
    ensures r.Some? ==> InstructionAt(sh, s, code, pos, r.value)
    ensures r.None? ==> forall i :: !InstructionAt(sh, s, code, pos, i)
  {
    var arity := ArityOf(Opcode(code[pos]));
    if arity.Unsupported? {
      NoExecutable(sh, s, code, pos, end, extensions, arity);
      return None;
    }
    var ts := ReadOperands(sh, s.bindings, code, pos + 1 + |extensions|, end, arity);
    if ts.Some? { OnlyOperands(sh, s.bindings, code, pos + 1 + |extensions|, end, arity, ts.value); }
    if ts.None? || pos + 1 + |extensions| + SizeOfOperands(ts.value) != end {
      NoExecutable(sh, s, code, pos, end, extensions, arity);
      return None;
    }
    r := Some(Execute(code[pos], extensions, ts.value));
    ExecuteFits(sh, s, code, pos, end, r.value);
  }

  lemma OnlyOperands(
    sh: Shader, bindings: seq<Binding>, code: seq<Word>, pos: nat, end: nat, a: Arity, ts: seq<Operand>)
    requires a.Takes? && OperandsAt(sh, bindings, code, pos, end, a, a.operands, ts)
    ensures forall us :: OperandsAt(sh, bindings, code, pos, end, a, a.operands, us) ==> us == ts
  {
    OperandsDecide(sh, bindings, code, pos, end, a);
    forall us | OperandsAt(sh, bindings, code, pos, end, a, a.operands, us) ensures us == ts {
      Layout.Agree(Size, OperandsFrom(sh, bindings, code, pos, end, a), ts, us, |ts|);
    }
  }

  /** No operand list for the arity fills the instruction, so no instruction is there. */
  lemma NoExecutable(
    sh: Shader, s: Progress, code: seq<Word>, pos: nat, end: nat, extensions: seq<Word>, arity: Arity)
    requires pos < |code| && end == pos + Length(code[pos]) && arity == ArityOf(Opcode(code[pos]))
    requires ExtensionsOk(InstructionRule, code[pos], extensions) && SpellsWords(extensions, code, pos + 1)
    requires Opcode(code[pos]) != 53 && !DeclaresLimits(Opcode(code[pos])) && !DeclaresOperand(Opcode(code[pos]))
    requires arity.Takes? ==> forall ts :: OperandsAt(sh, s.bindings, code, pos + 1 + |extensions|, end, arity, arity.operands, ts) ==>
               pos + 1 + |extensions| + SizeOfOperands(ts) != end
    ensures forall i :: !InstructionAt(sh, s, code, pos, i)
  {
    forall i ensures !InstructionAt(sh, s, code, pos, i) {
      if InstructionAt(sh, s, code, pos, i) {
        ExecuteOnly(sh, s, code, pos, end, extensions, i);
      }
    }
  }

  method ReadInstruction(sh: Shader, s: Progress, code: seq<Word>, pos: nat) returns (r: Option<Instruction>)
    requires pos < |code|
    ensures r.Some? ==> InstructionAt(sh, s, code, pos, r.value)
    ensures r.None? ==> forall i :: !InstructionAt(sh, s, code, pos, i)
  {
    var token, op := code[pos], Opcode(code[pos]);
    if s.count + 1 > MAX_INSTRUCTIONS { return None; }
    if op == 53 {
      r := ReadCustom(sh, s, code, pos);
      return;
    }
    var length := Length(token);
    if length == 0 || length > |code| - pos { return None; }
    var end := pos + length;
    var extensions := ReadExtensions(InstructionRule, code, pos + 1, end, token);
    if extensions.None? { return None; }
    if DeclaresLimits(op) || DeclaresOperand(op) {
      if s.executing || extensions.value != [] { return None; }
      if DeclaresLimits(op) {
        r := ReadLimits(sh, s, code, pos, end);
      } else {
        r := ReadDeclaration(sh, s, code, pos, end);
      }
    } else {
      r := ReadExecutable(sh, s, code, pos, end, extensions.value);
    }
  }
}
