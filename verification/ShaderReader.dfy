/**
  The pass over the instruction stream (src/rr_albedo_shader.h:359-484) and what
  its acceptance guarantees.
*/
module ShaderReader {
  import opened ShaderBytes
  import opened ShaderResources
  import opened ShaderOperand
  import opened ShaderProgram
  import Control = ShaderControl
  import Signature = ShaderSignature
  import Layout

  // --- Instructions are determined by the words they stand for ---

  lemma CustomUnique(sh: Shader, s: Progress, code: seq<Word>, pos: nat, a: Instruction, b: Instruction)
    requires InstructionAt(sh, s, code, pos, a) && InstructionAt(sh, s, code, pos, b)
    requires Opcode(code[pos]) == 53
    ensures a == b
  {
    SpelledWord(a.body, code, pos + 1);
    SpelledWord(b.body, code, pos + 1);
  }

  lemma DeclareUnique(sh: Shader, s: Progress, code: seq<Word>, pos: nat, a: Instruction, b: Instruction)
    requires InstructionAt(sh, s, code, pos, a) && InstructionAt(sh, s, code, pos, b)
    requires DeclaresOperand(Opcode(code[pos]))
    ensures a == b
  {
    var end := pos + Length(code[pos]);
    DeclareOnly(sh, s, code, pos, end, a);
    DeclareOnly(sh, s, code, pos, end, b);
    OperandUnique(sh, s.bindings, a.operand, b.operand, 0, true, code, pos + 1);
  }

  lemma ExecuteUnique(sh: Shader, s: Progress, code: seq<Word>, pos: nat, a: Instruction, b: Instruction)
    requires InstructionAt(sh, s, code, pos, a) && InstructionAt(sh, s, code, pos, b)
    requires a.Execute? && b.Execute?
    ensures a == b
  {
    var end := pos + Length(code[pos]);
    ExecuteOnly(sh, s, code, pos, end, a.extensions, a);
    ExecuteOnly(sh, s, code, pos, end, a.extensions, b);
    OnlyOperands(sh, s.bindings, code, pos + 1 + |a.extensions|, end, ArityOf(Opcode(code[pos])), a.operands);
  }

  lemma InstructionUnique(sh: Shader, s: Progress, code: seq<Word>, pos: nat, a: Instruction, b: Instruction)
    requires InstructionAt(sh, s, code, pos, a) && InstructionAt(sh, s, code, pos, b)
    ensures a == b
  {
    if Opcode(code[pos]) == 53 {
      CustomUnique(sh, s, code, pos, a, b);
    } else if DeclaresLimits(Opcode(code[pos])) {
      LimitsOnly(sh, s, code, pos, a);
      LimitsOnly(sh, s, code, pos, b);
    } else if DeclaresOperand(Opcode(code[pos])) {
      DeclareUnique(sh, s, code, pos, a, b);
    } else {
      ExecuteUnique(sh, s, code, pos, a, b);
    }
  }

  lemma InstructionsDetermined(sh: Shader, code: seq<Word>)
    ensures Layout.Determines(InstructionsOf(sh, code))
  {
    var fits := InstructionsOf(sh, code);
    forall s, x, y, offset: nat | fits(s, x, offset) && fits(s, y, offset) ensures x == y {
      assert InstructionAt(sh, s, code, 2 + offset, x) && InstructionAt(sh, s, code, 2 + offset, y);
      InstructionUnique(sh, s, code, 2 + offset, x, y);
    }
  }

  /** Any program for the code extends what has been read of it. */
  lemma ProgramExtends(sh: Shader, bindings: seq<Binding>, code: seq<Word>, p: seq<Instruction>, q: seq<Instruction>)
    requires IsProgram(sh, bindings, code, p) && Legal(sh, bindings, code, q) && PositionOf(q, |q|) <= |code|
    ensures |q| <= |p| && p[..|q|] == q
    ensures PositionOf(q, |q|) < |code| ==> |q| < |p|
    ensures PositionOf(q, |q|) == |code| ==> p == q
  {
    InstructionsDetermined(sh, code);
    Layout.ThreadExtends(SizeOf, Stepper(sh), InstructionsOf(sh, code), Start(bindings), q, p);
  }

  /** A code has at most one program: decoding is unambiguous. */
  lemma ProgramUnique(sh: Shader, bindings: seq<Binding>, code: seq<Word>, p: seq<Instruction>, q: seq<Instruction>)
    requires IsProgram(sh, bindings, code, p) && IsProgram(sh, bindings, code, q)
    ensures p == q
  {
    ProgramExtends(sh, bindings, code, p, q);
  }

  // --- The pass ---

  lemma {:induction false} SameOpcodes(p: seq<Instruction>, q: seq<Instruction>, n: nat)
    requires n <= |p| && n <= |q| && forall k :: 0 <= k < n ==> p[k] == q[k]
    ensures OpcodesTo(p, n) == OpcodesTo(q, n)
  {
    if n > 0 { SameOpcodes(p, q, n - 1); }
  }

  /** One more legal instruction. */
  lemma LegalSnoc(sh: Shader, bindings: seq<Binding>, code: seq<Word>, q: seq<Instruction>, i: Instruction)
    requires Legal(sh, bindings, code, q)
    requires InstructionAt(sh, StateAt(sh, bindings, q, |q|), code, PositionOf(q, |q|), i)
    ensures Legal(sh, bindings, code, q + [i])
    ensures StateAt(sh, bindings, q + [i], |q| + 1) == Next(sh, StateAt(sh, bindings, q, |q|), i)
    ensures PositionOf(q + [i], |q| + 1) == PositionOf(q, |q|) + SizeOf(i) <= |code|
  {
    Layout.ThreadAppend(SizeOf, Stepper(sh), InstructionsOf(sh, code), Start(bindings), q, i);
  }

  lemma NoNextInstruction(sh: Shader, bindings: seq<Binding>, code: seq<Word>, p: seq<Instruction>, q: seq<Instruction>)
    requires Legal(sh, bindings, code, q) && PositionOf(q, |q|) < |code| && IsProgram(sh, bindings, code, p)
    ensures |q| < |p| && InstructionAt(sh, StateAt(sh, bindings, q, |q|), code, PositionOf(q, |q|), p[|q|])
  {
    ProgramExtends(sh, bindings, code, p, q);
    Layout.SameState(Stepper(sh), Start(bindings), p, q, |q|);
    Layout.SameOffset(SizeOf, p, q, |q|);
    LegalAt(sh, bindings, code, p, |q|);
  }

  lemma {:induction false} OpcodesBegin(p: seq<Instruction>, n: nat) returns (rest: seq<nat>)
    requires n <= |p|
    ensures Opcodes(p) == OpcodesTo(p, n) + rest
    decreases |p| - n
  {
    rest := [];
    if n < |p| {
      var tail := OpcodesBegin(p, n + 1);
      var here: seq<nat> := if p[n].Execute? then [Opcode(p[n].token)] else [];
      rest := here + tail;
    }
  }

  lemma {:induction false} ChecksPrefix(blocks: seq<nat>, a: seq<nat>, b: seq<nat>)
    requires Control.Checks(blocks, a + b)
    ensures Control.Checks(blocks, a)
    decreases |a|
  {
    if a != [] {
      assert (a + b)[0] == a[0] && (a + b)[1..] == a[1..] + b;
      ChecksPrefix(Control.Advance(blocks, a[0]), a[1..], b);
    }
  }

  lemma NoControl(sh: Shader, bindings: seq<Binding>, code: seq<Word>, q: seq<Instruction>)
    requires Legal(sh, bindings, code, q) && PositionOf(q, |q|) <= |code|
    requires !Control.Checks([], Opcodes(q))
    ensures forall p :: !IsProgram(sh, bindings, code, p)
  {
    forall p ensures !IsProgram(sh, bindings, code, p) {
      if IsProgram(sh, bindings, code, p) {
        ProgramExtends(sh, bindings, code, p, q);
        SameOpcodes(p, q, |q|);
        var rest := OpcodesBegin(p, |q|);
        ChecksPrefix([], Opcodes(q), rest);
      }
    }
  }

  lemma OnlyProgram(sh: Shader, bindings: seq<Binding>, code: seq<Word>, q: seq<Instruction>)
    requires Legal(sh, bindings, code, q) && PositionOf(q, |q|) == |code|
    ensures forall p :: IsProgram(sh, bindings, code, p) ==> p == q
  {
    forall p | IsProgram(sh, bindings, code, p) ensures p == q {
      ProgramExtends(sh, bindings, code, p, q);
    }
  }

  method AllDeclared(bindings: seq<Binding>) returns (ok: bool)
    ensures ok <==> forall k :: 0 <= k < |bindings| ==> bindings[k].declared
  {
    for k := 0 to |bindings|
      invariant forall j :: 0 <= j < k ==> bindings[j].declared
    {
      if !bindings[k].declared { return false; }
    }
    return true;
  }

  /** The control check of one instruction; only executable ones take part. */
  method CheckControl(blocks: array<nat>, depth: nat, ghost q: seq<Instruction>, i: Instruction)
    returns (ok: bool, depth': nat)
    requires blocks.Length == Control.MAX_DEPTH && depth <= Control.MAX_DEPTH
    requires Control.Checks([], Opcodes(q)) && Control.Remaining([], Opcodes(q)) == blocks[..depth]
    modifies blocks
    ensures ok <==> Control.Checks([], Opcodes(q + [i]))
    ensures ok ==> depth' <= Control.MAX_DEPTH && Control.Remaining([], Opcodes(q + [i])) == blocks[..depth']
  {
    SameOpcodes(q, q + [i], |q|);
    if !i.Execute? {
      assert Opcodes(q + [i]) == Opcodes(q);
      return true, depth;
    }
    assert Opcodes(q + [i]) == Opcodes(q) + [Opcode(i.token)];
    Control.CheckLast([], Opcodes(q), Opcode(i.token));
    ok, depth' := Control.CheckOpcode(blocks, depth, Opcode(i.token));
  }

  /** Accepts exactly the codes that have a program, and counts its instructions. */
  method ReadProgram(sh: Shader, bindings: seq<Binding>, code: seq<Word>) returns (r: Option<nat>)
    requires |code| >= 2
    ensures r.Some? ==> exists q :: IsProgram(sh, bindings, code, q) && r.value == |q|
    ensures r.None? ==> forall q :: !IsProgram(sh, bindings, code, q)
  {
    var s := Start(bindings);
    var pos: nat := 2;
    var blocks := new nat[Control.MAX_DEPTH](_ => 0);
    var depth: nat := 0;
    ghost var q: seq<Instruction> := [];
    while pos < |code|
      invariant Legal(sh, bindings, code, q) && s == StateAt(sh, bindings, q, |q|)
      invariant pos == PositionOf(q, |q|) <= |code|
      invariant depth <= Control.MAX_DEPTH
      invariant Control.Checks([], Opcodes(q)) && Control.Remaining([], Opcodes(q)) == blocks[..depth]
      decreases |code| - pos
    {
      var i := ReadInstruction(sh, s, code, pos);
      if i.None? {
        forall p ensures !IsProgram(sh, bindings, code, p) {
          if IsProgram(sh, bindings, code, p) { NoNextInstruction(sh, bindings, code, p, q); }
        }
        return None;
      }
      LegalSnoc(sh, bindings, code, q, i.value);
      var ok;
      ok, depth := CheckControl(blocks, depth, q, i.value);
      if !ok {
        NoControl(sh, bindings, code, q + [i.value]);
        return None;
      }
      q := q + [i.value];
      s := Next(sh, s, i.value);
      pos := pos + SizeOf(i.value);
    }
    OnlyProgram(sh, bindings, code, q);
    if depth != 0 || s.exits == 0 { return None; }
    if sh.pixel && s.targets != Signature.AllTargets(sh.targetCount) { return None; }
    var declared := AllDeclared(s.bindings);
    if !declared { return None; }
    CountIsLength(sh, bindings, q, |q|);
    return Some(s.count);
  }

  lemma {:induction false} CountIsLength(sh: Shader, bindings: seq<Binding>, q: seq<Instruction>, n: nat)
    requires n <= |q|
    ensures StateAt(sh, bindings, q, n).count == n
  {
    if n > 0 { CountIsLength(sh, bindings, q, n - 1); }
  }
}
