/**
  Shader validation as a whole (src/rr_albedo_shader.h:485-503) and what it
  guarantees about the shaders it accepts.
*/
module ShaderParser {
  import opened ShaderBytes
  import opened ShaderOperand
  import opened ShaderProgram
  import opened ShaderReader
  import opened ShaderTables
  import Container = ShaderContainer
  import Signature = ShaderSignature
  import Resources = ShaderResources
  import Control = ShaderControl
  import Layout

  type Contract = Signature.Contract

  function Payload(data: seq<Byte>, c: Container.Chunk): seq<Byte>
    requires c.offset + c.size <= |data|
  {
    data[c.offset..c.offset + c.size]
  }

  /** The code chunk as 32-bit words. */
  function CodeWords(data: seq<Byte>, c: Container.Chunk): (code: seq<Word>)
    requires c.offset + c.size <= |data|
    ensures |code| == c.size / 4
  {
    seq(c.size / 4, i requires 0 <= i < c.size / 4 => WordAt(data, c.offset + 4 * i))
  }

  predicate Model51(c: Container.Container) { c.major == 5 && c.minor == 1 }

  function ShaderOf(c: Container.Container, pixel: bool, contract: Contract): Shader
  {
    Shader(pixel, contract.targetCount, contract.componentMasks, Model51(c))
  }

  ghost predicate Fits(data: seq<Byte>, c: Container.Container)
  {
    && c.code.offset + c.code.size <= |data| && c.code.size >= 12
    && c.output.offset + c.output.size <= |data|
    && c.resources.offset + c.resources.size <= |data|
  }

  /** What the signature says of the targets; a vertex shader publishes none. */
  ghost predicate Targets(s: seq<Byte>, tag: Word, pixel: bool, contract: Contract)
  {
    && Signature.SignatureOk(s, tag, pixel)
    && |contract.componentMasks| == 2 && |contract.neverWritesMasks| == 2
    && if pixel then
         && contract.targetCount == WordAt(s, 0)
         && Signature.Publishes(s, tag, WordAt(s, 0), contract.componentMasks, contract.neverWritesMasks)
         && Signature.Untouched(Signature.EMPTY, contract, WordAt(s, 0))
       else
         && contract.targetCount == 0
         && contract.componentMasks == Signature.EMPTY.componentMasks
         && contract.neverWritesMasks == Signature.EMPTY.neverWritesMasks
  }

  /** A complete reading of an acceptable shader. */
  ghost predicate IsShader(
    data: seq<Byte>, pixel: bool, c: Container.Container, bindings: seq<Resources.Binding>, q: seq<Instruction>,
    contract: Contract)
  {
    && Container.IsContainer(data, c) && Fits(data, c)
    && c.stage == (if pixel then 0 else 1)
    && Targets(Payload(data, c.output), c.output.tag, pixel, contract)
    && Resources.IsTable(Payload(data, c.resources), c.stage, c.major, Model51(c), bindings)
    && IsProgram(ShaderOf(c, pixel, contract), bindings, CodeWords(data, c.code), q)
    && contract.instructionCount == |q|
    && contract.resourceCount == WordAt(Payload(data, c.resources), 8)
    && contract.shaderMajor == c.major && contract.shaderMinor == c.minor
  }

  lemma ContainerFits(data: seq<Byte>, c: Container.Container)
    requires Container.IsContainer(data, c)
    ensures Fits(data, c)
  {
    Container.CodeFits(data, c.code);
    var i :| 0 <= i < Container.ChunkCount(data) && Container.ChunkOk(data, i) && Container.ChunkAt(data, i) == c.output;
    var j :| 0 <= j < Container.ChunkCount(data) && Container.ChunkOk(data, j) && Container.ChunkAt(data, j) == c.resources;
  }

  lemma TargetsUnique(s: seq<Byte>, tag: Word, pixel: bool, a: Contract, b: Contract)
    requires Targets(s, tag, pixel, a) && Targets(s, tag, pixel, b)
    ensures a.targetCount == b.targetCount && a.componentMasks == b.componentMasks
    ensures a.neverWritesMasks == b.neverWritesMasks
  {
    if pixel {
      forall g: nat | g < 2
        ensures a.componentMasks[g] == b.componentMasks[g] && a.neverWritesMasks[g] == b.neverWritesMasks[g]
      {
        if g < WordAt(s, 0) {
          Signature.TargetsContiguous(s, tag, g);
          var i :| 0 <= i < WordAt(s, 0) && Signature.RecordAt(s, tag, true, i).register == g;
        }
      }
    }
  }

  /** A blob is read in at most one way. */
  lemma ShaderUnique(
    data: seq<Byte>, pixel: bool,
    c: Container.Container, bindings: seq<Resources.Binding>, q: seq<Instruction>, contract: Contract,
    c': Container.Container, bindings': seq<Resources.Binding>, q': seq<Instruction>, contract': Contract)
    requires IsShader(data, pixel, c, bindings, q, contract) && IsShader(data, pixel, c', bindings', q', contract')
    ensures c == c' && bindings == bindings' && q == q' && contract == contract'
  {
    Container.ContainerUnique(data, c, c');
    TargetsUnique(Payload(data, c.output), c.output.tag, pixel, contract, contract');
    Resources.TableUnique(Payload(data, c.resources), c.stage, c.major, Model51(c), bindings, bindings');
    ProgramUnique(ShaderOf(c, pixel, contract), bindings, CodeWords(data, c.code), q, q');
  }

  /** Accepts exactly the blobs that have a reading, and publishes its contract. */
  method Parse(data: seq<Byte>, pixel: bool) returns (r: Option<Contract>)
    ensures r.Some? ==> exists c, bindings, q :: IsShader(data, pixel, c, bindings, q, r.value)
    ensures r.None? ==> forall c, bindings, q, contract :: !IsShader(data, pixel, c, bindings, q, contract)
  {
    var container := Container.ReadContainer(data);
    if container.None? { return None; }
    var c := container.value;
    ContainerFits(data, c);
    forall d | Container.IsContainer(data, d) ensures d == c {
      Container.ContainerUnique(data, c, d);
    }
    if c.stage != (if pixel then 0 else 1) { return None; }
    var output, resources := Payload(data, c.output), Payload(data, c.resources);
    var checked := Signature.EMPTY.(shaderMajor := c.major, shaderMinor := c.minor);
    var targets := Signature.ReadOutputs(output, c.output.tag, pixel, checked);
    if targets.None? { return None; }
    var contract := targets.value;
    assert Targets(output, c.output.tag, pixel, contract);
    var table := Resources.ReadResources(resources, c.stage, c.major, Model51(c));
    if table.None? { return None; }
    var bindings := table.value;
    var count := ReadProgram(ShaderOf(c, pixel, contract), bindings, CodeWords(data, c.code));
    if count.None? {
      NoShader(data, pixel, c, bindings, contract);
      return None;
    }
    contract := contract.(instructionCount := count.value, resourceCount := WordAt(resources, 8));
    ghost var q :| IsProgram(ShaderOf(c, pixel, contract), bindings, CodeWords(data, c.code), q) && count.value == |q|;
    assert IsShader(data, pixel, c, bindings, q, contract);
    return Some(contract);
  }

  /** Any reading of the blob has the same container, signature and table, so its program fits them. */
  lemma ProgramOfReading(
    data: seq<Byte>, pixel: bool, c: Container.Container, bindings: seq<Resources.Binding>, contract: Contract,
    d: Container.Container, bindings': seq<Resources.Binding>, q: seq<Instruction>, contract': Contract)
    requires Container.IsContainer(data, c) && Fits(data, c)
    requires Targets(Payload(data, c.output), c.output.tag, pixel, contract)
    requires Resources.IsTable(Payload(data, c.resources), c.stage, c.major, Model51(c), bindings)
    requires IsShader(data, pixel, d, bindings', q, contract')
    ensures IsProgram(ShaderOf(c, pixel, contract), bindings, CodeWords(data, c.code), q)
  {
    Container.ContainerUnique(data, c, d);
    TargetsUnique(Payload(data, c.output), c.output.tag, pixel, contract, contract');
    Resources.TableUnique(Payload(data, c.resources), c.stage, c.major, Model51(c), bindings, bindings');
  }

  /** Without a program under the one signature and table of the blob there is no reading. */
  lemma NoShader(
    data: seq<Byte>, pixel: bool, c: Container.Container, bindings: seq<Resources.Binding>, contract: Contract)
    requires Container.IsContainer(data, c) && Fits(data, c)
    requires Targets(Payload(data, c.output), c.output.tag, pixel, contract)
    requires Resources.IsTable(Payload(data, c.resources), c.stage, c.major, Model51(c), bindings)
    requires forall q :: !IsProgram(ShaderOf(c, pixel, contract), bindings, CodeWords(data, c.code), q)
    ensures forall d, bindings', q, contract' :: !IsShader(data, pixel, d, bindings', q, contract')
  {
    forall d, bindings', q, contract' ensures !IsShader(data, pixel, d, bindings', q, contract') {
      if IsShader(data, pixel, d, bindings', q, contract') {
        ProgramOfReading(data, pixel, c, bindings, contract, d, bindings', q, contract');
      }
    }
  }

  // --- What acceptance guarantees ---

  /** The instructions of an accepted shader tile its code words from word 2 to the end. */
  lemma InstructionsTile(
    data: seq<Byte>, pixel: bool, c: Container.Container, bindings: seq<Resources.Binding>, q: seq<Instruction>,
    contract: Contract, i: nat)
    requires IsShader(data, pixel, c, bindings, q, contract) && i < |q|
    ensures PositionOf(q, 0) == 2 && PositionOf(q, |q|) == |CodeWords(data, c.code)|
    ensures PositionOf(q, i + 1) == PositionOf(q, i) + SizeOf(q[i]) <= |CodeWords(data, c.code)|
    ensures SpellsInstruction(q[i], CodeWords(data, c.code), PositionOf(q, i))
  {
    LegalAt(ShaderOf(c, pixel, contract), bindings, CodeWords(data, c.code), q, i);
  }

  /** Its control tokens derive from the grammar of structured programs. */
  lemma ControlIsStructured(
    data: seq<Byte>, pixel: bool, c: Container.Container, bindings: seq<Resources.Binding>, q: seq<Instruction>,
    contract: Contract)
    requires IsShader(data, pixel, c, bindings, q, contract)
    ensures exists code :: Control.Structured(code, Control.TOP) && Control.Emit(code, []) == Opcodes(q)
  {
    Control.BalancedIffStructured(Opcodes(q));
  }

  /** Where an executed instruction may write. */
  predicate WritesAllowed(sh: Shader, t: Operand)
  {
    || Kind(t.token) == TEMP || Kind(t.token) == INDEXABLE_TEMP || Kind(t.token) == NULL
    || (Kind(t.token) == OUTPUT && ImmediateAt(t, 0) &&
        (if sh.pixel then
           IndexWord(t, 0) < sh.targetCount && IndexWord(t, 0) < |sh.masks| &&
           MaskWithin(WriteMask(t.token), sh.masks[IndexWord(t, 0)])
         else IndexWord(t, 0) < 32))
  }

  /** Every executed instruction is in the operand table, and its destinations stay where writes are allowed. */
  lemma DestinationsAllowed(
    data: seq<Byte>, pixel: bool, c: Container.Container, bindings: seq<Resources.Binding>, q: seq<Instruction>,
    contract: Contract, i: nat, k: nat)
    requires IsShader(data, pixel, c, bindings, q, contract) && i < |q| && q[i].Execute?
    ensures var op := Opcode(q[i].token);
            && Operands(op) == Some(|q[i].operands|) && Written(op) <= |q[i].operands|
            && (k < Written(op) ==> WritesAllowed(ShaderOf(c, pixel, contract), q[i].operands[k]))
            && (Written(op) <= k < |q[i].operands| ==> Kind(q[i].operands[k].token) != NULL)
  {
    var sh := ShaderOf(c, pixel, contract);
    OperandTable(Opcode(q[i].token));
    LegalAt(sh, bindings, CodeWords(data, c.code), q, i);
    if k < |q[i].operands| {
      OperandOkAt(sh, StateAt(sh, bindings, q, i), q[i], k);
    }
  }

  lemma OperandOkAt(sh: Shader, s: Progress, i: Instruction, k: nat)
    requires InstructionOk(sh, s, i) && i.Execute? && k < |i.operands|
    ensures ArityOf(Opcode(i.token)).Takes?
    ensures ExecuteOperandOk(sh, s.bindings, i.operands[k], k < ArityOf(Opcode(i.token)).destinations)
    ensures k < ArityOf(Opcode(i.token)).destinations ==> WritesAllowed(sh, i.operands[k])
  {
    Layout.InPlace(Size, OperandRules(sh, s.bindings, ArityOf(Opcode(i.token))), i.operands, k);
  }

}
