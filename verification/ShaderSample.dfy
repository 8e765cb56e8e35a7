/**
  A family of blobs that are certainly accepted: a vertex shader of plain
  instructions, with a one-record output signature and an empty resource table.
*/
module ShaderSample {
  import opened ShaderBytes
  import opened ShaderOperand
  import opened ShaderProgram
  import opened ShaderParser
  import opened ShaderTables
  import opened ShaderAcceptance
  import Container = ShaderContainer
  import Signature = ShaderSignature
  import Resources = ShaderResources

  // The output signature: one record of 24 bytes and the string "A".
  const SIGNATURE := 36
  const TABLE := 28

  predicate SignatureIs(s: seq<Byte>)
  {
    && |s| == SIGNATURE && WordAt(s, 0) == 1 && WordAt(s, 4) == 8
    && WordAt(s, 8) == 32 && WordAt(s, 12) == 0 && WordAt(s, 16) == 0 && WordAt(s, 20) == 3 && WordAt(s, 24) == 0
    && s[28] == 15 && s[29] == 0 && s[30] == 0 && s[31] == 0 && s[32] == 0x41 && s[33] == 0
  }

  predicate TableIs(s: seq<Byte>) { |s| == TABLE && WordAt(s, 0) == 0 && WordAt(s, 8) == 0 }

  /** Where the chunks of a blob with `n` code words start, headers included. */
  function CodeStart(): nat { 44 }
  function OutputStart(n: nat): nat { 52 + 4 * n }
  function TableStart(n: nat): nat { 96 + 4 * n }
  function Total(n: nat): nat { 132 + 4 * n }

  /** The header of the blob and of its three chunks. */
  predicate Framed(data: seq<Byte>, n: nat)
  {
    && |data| == Total(n) <= 262144
    && WordAt(data, 0) == Tag("DXBC") && WordAt(data, 20) == 1 && WordAt(data, 24) == |data| && WordAt(data, 28) == 3
    && WordAt(data, 32) == CodeStart() && WordAt(data, 36) == OutputStart(n) && WordAt(data, 40) == TableStart(n)
    && WordAt(data, CodeStart()) == Tag("SHDR") && WordAt(data, CodeStart() + 4) == 4 * n
    && WordAt(data, OutputStart(n)) == Tag("OSGN") && WordAt(data, OutputStart(n) + 4) == SIGNATURE
    && WordAt(data, TableStart(n)) == Tag("RDEF") && WordAt(data, TableStart(n) + 4) == TABLE
  }

  function CodeChunk(n: nat): Container.Chunk { Container.Chunk(Container.TAG_SHDR, 52, 4 * n) }
  function OutputChunk(n: nat): Container.Chunk { Container.Chunk(Container.TAG_OSGN, 60 + 4 * n, SIGNATURE) }
  function TableChunk(n: nat): Container.Chunk { Container.Chunk(Container.TAG_RDEF, 104 + 4 * n, TABLE) }

  function Sample(n: nat): Container.Container
  {
    Container.Container(CodeChunk(n), OutputChunk(n), TableChunk(n), 5, 0, 1)
  }

  lemma Fours(n: nat)
    ensures (132 + 4 * n) % 4 == 0 && (52 + 4 * n) % 4 == 0 && (96 + 4 * n) % 4 == 0
    ensures Table(32, 3, 4, 132 + 4 * n)
  {
    TableFits(32, 3, 4, 132 + 4 * n);
  }

  lemma FramedHeader(data: seq<Byte>, n: nat)
    requires Framed(data, n)
    ensures Container.HeaderOk(data) && Container.ChunkCount(data) == 3
  {
    Fours(n);
    RoleTable(0);
  }

  /** A chunk that stands at a multiple of four, behind the table and inside the blob. */
  lemma ChunkStands(data: seq<Byte>, i: nat, start: nat, tag: Word, size: nat)
    requires Container.HeaderOk(data) && Container.ChunkCount(data) == 3 && i < 3 && Container.Entry(data, i) == start
    requires start % 4 == 0 && start >= 44 && start + 8 + size <= |data| && WordAt(data, start) == tag && WordAt(data, start + 4) == size
    requires Container.RoleOf(tag) != Container.Unknown
    ensures Container.ChunkOk(data, i) && Container.ChunkAt(data, i) == Container.Chunk(tag, start + 8, size)
  {
  }

  lemma FramedChunk(data: seq<Byte>, n: nat, i: nat)
    requires Framed(data, n) && i < 3
    ensures Container.HeaderOk(data) && Container.ChunkCount(data) == 3 && Container.ChunkOk(data, i)
    ensures Container.ChunkAt(data, i) == if i == 0 then CodeChunk(n) else if i == 1 then OutputChunk(n) else TableChunk(n)
  {
    FramedHeader(data, n);
    Fours(n);
    if i == 0 {
      RoleTable(Container.TAG_SHDR);
      ChunkStands(data, 0, CodeStart(), Container.TAG_SHDR, 4 * n);
    } else if i == 1 {
      RoleTable(Container.TAG_OSGN);
      ChunkStands(data, 1, OutputStart(n), Container.TAG_OSGN, SIGNATURE);
    } else {
      RoleTable(Container.TAG_RDEF);
      ChunkStands(data, 2, TableStart(n), Container.TAG_RDEF, TABLE);
    }
  }

  lemma FramedTable(data: seq<Byte>, n: nat)
    requires Framed(data, n)
    ensures Container.HeaderOk(data) && Container.ChunkCount(data) == 3 && Container.TableOk(data, 3)
  {
    FramedHeader(data, n);
    forall i: nat | i < 3 ensures Container.ChunkOk(data, i) { FramedChunk(data, n, i); }
    forall i: nat, j: nat | i < j < 3 ensures Container.PairOk(data, i, j) {
      FramedChunk(data, n, i);
      FramedChunk(data, n, j);
    }
  }

  lemma FramedVersion(data: seq<Byte>, n: nat)
    requires 52 + 4 * n <= |data| && n >= 3 && WordAt(data, 52) == 0x1_0050 && WordAt(data, 56) == n
    ensures Container.VersionOk(data, Sample(n))
  {
    var version: nat := WordAt(data, 52);
    assert version / 0x1_0000 == 1 && version / 16 % 16 == 5 && version % 16 == 0 && version / 256 % 256 == 0;
  }

  lemma FramedContainer(data: seq<Byte>, n: nat)
    requires Framed(data, n) && n >= 3 && WordAt(data, 52) == 0x1_0050 && WordAt(data, 56) == n
    ensures Container.IsContainer(data, Sample(n))
  {
    FramedTable(data, n);
    FramedVersion(data, n);
    FramedHolds(data, n, 0, Container.Code);
    FramedHolds(data, n, 1, Container.Output);
    FramedHolds(data, n, 2, Container.Resources);
  }

  lemma FramedHolds(data: seq<Byte>, n: nat, i: nat, role: Container.Role)
    requires Framed(data, n) && i < 3 && role == if i == 0 then Container.Code else if i == 1 then Container.Output else Container.Resources
    ensures Container.HeaderOk(data) && Container.ChunkCount(data) == 3 && Container.TableOk(data, 3)
    ensures Container.Holds(data, 3, role, if i == 0 then CodeChunk(n) else if i == 1 then OutputChunk(n) else TableChunk(n))
  {
    FramedTable(data, n);
    FramedChunk(data, n, i);
    assert Container.RoleAt(data, i) == role;
  }

  lemma SignatureAccepted(s: seq<Byte>)
    requires SignatureIs(s)
    ensures Signature.SignatureOk(s, Container.TAG_OSGN, false)
  {
    TableFits(8, 1, 24, |s|);
    assert StringOfLength(s, 32, 1);
  }

  lemma TableAccepted(s: seq<Byte>, stage: nat, major: nat)
    requires TableIs(s)
    ensures Resources.IsTable(s, stage, major, false, [])
  {
  }

  predicate HoldsCode(data: seq<Byte>, code: seq<Word>)
  {
    52 + 4 * |code| <= |data| && forall i :: 0 <= i < |code| ==> WordAt(data, 52 + 4 * i) == code[i]
  }

  /** A blob with `n` code words that is right but for the instructions among them. */
  predicate Shell(data: seq<Byte>, n: nat)
  {
    && Framed(data, n) && n >= 3 && WordAt(data, 52) == 0x1_0050 && WordAt(data, 56) == n
    && SignatureIs(data[60 + 4 * n..96 + 4 * n]) && TableIs(data[104 + 4 * n..132 + 4 * n])
  }

  function SampleContract(count: nat): Contract { Signature.Contract(0, [0, 0], [0, 0], count, 0, 5, 0) }

  function SampleShader(n: nat): Shader { ShaderOf(Sample(n), false, SampleContract(0)) }

  lemma SampleFits(data: seq<Byte>, n: nat)
    requires Framed(data, n) && n >= 3
    ensures Fits(data, Sample(n))
    ensures Payload(data, OutputChunk(n)) == data[60 + 4 * n..96 + 4 * n]
    ensures Payload(data, TableChunk(n)) == data[104 + 4 * n..132 + 4 * n]
  {
  }

  lemma SampleTargets(s: seq<Byte>, count: nat)
    requires SignatureIs(s)
    ensures Targets(s, Container.TAG_OSGN, false, SampleContract(count))
  {
    SignatureAccepted(s);
  }

  lemma PartContainer(data: seq<Byte>, n: nat, c: Container.Container)
    requires Shell(data, n) && c == Sample(n)
    ensures Container.IsContainer(data, c) && Fits(data, c)
  {
    FramedContainer(data, n);
    SampleFits(data, n);
  }

  lemma PartTargets(data: seq<Byte>, n: nat, count: nat, c: Container.Container)
    requires Framed(data, n) && n >= 3 && c == Sample(n) && Fits(data, c) && SignatureIs(data[60 + 4 * n..96 + 4 * n])
    ensures Targets(Payload(data, c.output), c.output.tag, false, SampleContract(count))
  {
    SampleFits(data, n);
    SampleTargets(Payload(data, OutputChunk(n)), count);
  }

  lemma PartTable(data: seq<Byte>, n: nat, c: Container.Container)
    requires Framed(data, n) && n >= 3 && c == Sample(n) && Fits(data, c) && TableIs(data[104 + 4 * n..132 + 4 * n])
    ensures Resources.IsTable(Payload(data, c.resources), c.stage, c.major, Model51(c), []) && WordAt(Payload(data, c.resources), 8) == 0
  {
    SampleFits(data, n);
    TableAccepted(Payload(data, TableChunk(n)), 1, 5);
  }

  /** With any program in its code, such a blob is accepted. */
  lemma ShellAccepted(data: seq<Byte>, n: nat, q: seq<Instruction>, c: Container.Container)
    requires Shell(data, n) && c == Sample(n) && Fits(data, c) && IsProgram(SampleShader(n), [], CodeWords(data, c.code), q)
    ensures IsShader(data, false, c, [], q, SampleContract(|q|))
  {
    PartContainer(data, n, c);
    PartTargets(data, n, |q|, c);
    PartTable(data, n, c);
  }

  // --- Plain instructions ---

  lemma SampleCode(data: seq<Byte>, code: seq<Word>)
    requires HoldsCode(data, code)
    ensures CodeWords(data, CodeChunk(|code|)) == code
  {
    var words := CodeWords(data, CodeChunk(|code|));
    forall i | 0 <= i < |code| ensures words[i] == code[i] {
      assert WordAt(data, 52 + 4 * i) == code[i];
    }
  }

  /** The words behind the header of the code spell plain instructions, the last of which returns. */
  predicate SpellsPlain(code: seq<Word>, ops: seq<nat>)
  {
    AllPlain(ops) && SpelledList(code, ops) && 0 < |ops| <= 65536 && ops[|ops| - 1] == 62
  }

  /** Whatever plain instructions its code spells, such a blob is accepted, with this reading. */
  lemma SampleAccepted(data: seq<Byte>, code: seq<Word>, ops: seq<nat>)
    requires Shell(data, |code|) && HoldsCode(data, code) && SpellsPlain(code, ops)
    ensures IsShader(data, false, Sample(|code|), [], Instructions(ops), SampleContract(|ops|))
  {
    var c := Sample(|code|);
    SampleFits(data, |code|);
    SampleCode(data, code);
    PlainProgramsAccepted(SampleShader(|code|), code, ops);
    ShellAccepted(data, |code|, Instructions(ops), c);
  }

  /** So the parser accepts it, and reports its instructions. */
  method ParseSample(data: seq<Byte>, ghost code: seq<Word>, ghost ops: seq<nat>) returns (r: Option<Contract>)
    requires Shell(data, |code|) && HoldsCode(data, code) && SpellsPlain(code, ops)
    ensures r == Some(SampleContract(|ops|))
  {
    SampleAccepted(data, code, ops);
    r := ParseKnown(data, Sample(|code|), Instructions(ops), SampleContract(|ops|));
  }

  /** The parser finds the one reading there is. */
  method ParseKnown(data: seq<Byte>, ghost c: Container.Container, ghost q: seq<Instruction>, ghost contract: Contract)
    returns (r: Option<Contract>)
    requires IsShader(data, false, c, [], q, contract)
    ensures r == Some(contract)
  {
    r := Parse(data, false);
    ghost var d, bindings, p :| IsShader(data, false, d, bindings, p, r.value);
    ShaderUnique(data, false, d, bindings, p, r.value, c, [], q, contract);
  }
}
