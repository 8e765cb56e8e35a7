/**
  Resource declarations in shader model 5.1 (src/rr_albedo_shader.h:302-318,
  416-434, 481-482): every use of a resource is backed by exactly one earlier
  declaration, which repeats its entry in the resource table.
*/
module ShaderDeclarations {
  import opened ShaderBytes
  import opened ShaderResources
  import opened ShaderOperand
  import opened ShaderProgram
  import opened ShaderParser
  import Layout

  predicate SameIdentity(a: Binding, b: Binding)
  {
    && a.operandType == b.operandType && a.identifier == b.identifier && a.space == b.space
    && a.first == b.first && a.last == b.last && a.kind == b.kind && a.structureStride == b.structureStride
  }

  predicate SameTable(a: seq<Binding>, b: seq<Binding>)
  {
    |a| == |b| && forall k :: 0 <= k < |a| ==> SameIdentity(a[k], b[k])
  }

  lemma {:induction false} FindSame(a: seq<Binding>, b: seq<Binding>, kind: nat, identifier: Word, i: nat)
    requires SameTable(a, b) && i <= |a|
    ensures FindFrom(a, kind, identifier, i) == FindFrom(b, kind, identifier, i)
    decreases |a| - i
  {
    if i < |a| {
      assert SameIdentity(a[i], b[i]);
      FindSame(a, b, kind, identifier, i + 1);
    }
  }

  /** Instruction `j` declares entry `b` of the resource table. */
  predicate DeclaresAt(bindings: seq<Binding>, q: seq<Instruction>, j: nat, b: nat)
    requires j < |q|
  {
    && q[j].Declare? && DeclaresResource(Opcode(q[j].token))
    && Find(bindings, Kind(q[j].operand.token), IndexWord(q[j].operand, 0)) == Some(b)
  }

  ghost predicate DeclaredBy(bindings: seq<Binding>, q: seq<Instruction>, n: nat, b: nat)
    requires n <= |q|
  {
    exists j :: 0 <= j < n && DeclaresAt(bindings, q, j, b)
  }

  /** The reader's table after `n` instructions: the original one, with the declared entries marked. */
  ghost predicate Tracks(sh: Shader, bindings: seq<Binding>, q: seq<Instruction>, n: nat)
    requires n <= |q|
  {
    Tracked(StateAt(sh, bindings, q, n).bindings, bindings, q, n)
  }

  ghost predicate Tracked(now: seq<Binding>, bindings: seq<Binding>, q: seq<Instruction>, n: nat)
    requires n <= |q|
  {
    && SameTable(now, bindings)
    && forall b :: 0 <= b < |bindings| ==> (now[b].declared <==> DeclaredBy(bindings, q, n, b))
  }

  ghost predicate AllUndeclared(bindings: seq<Binding>)
  {
    forall b :: 0 <= b < |bindings| ==> !bindings[b].declared
  }

  /** What an acceptable 5.1 resource declaration says, read against the original table. */
  lemma DeclarationFacts(sh: Shader, bindings: seq<Binding>, s: Progress, i: Instruction)
    requires sh.model51 && InstructionOk(sh, s, i) && SameTable(s.bindings, bindings)
    requires i.Declare? && DeclaresResource(Opcode(i.token))
    ensures var found := Find(bindings, Kind(i.operand.token), IndexWord(i.operand, 0));
            && found.Some? && !s.bindings[found.value].declared && i.trailing != []
            && bindings[found.value].first == IndexWord(i.operand, 1)
            && bindings[found.value].last == IndexWord(i.operand, 2)
            && bindings[found.value].space == i.trailing[|i.trailing| - 1]
            && Find(s.bindings, Kind(i.operand.token), IndexWord(i.operand, 0)) == found
  {
    FindSame(s.bindings, bindings, Kind(i.operand.token), IndexWord(i.operand, 0), 0);
    assert DeclarationOk(sh, s, Opcode(i.token), i.operand, i.trailing);
    var found := Find(s.bindings, Kind(i.operand.token), IndexWord(i.operand, 0));
    assert found.Some?;
    assert SameIdentity(s.bindings[found.value], bindings[found.value]);
  }

  lemma DeclaredNext(bindings: seq<Binding>, q: seq<Instruction>, n: nat, b: nat)
    requires n < |q|
    ensures DeclaredBy(bindings, q, n + 1, b) <==> DeclaredBy(bindings, q, n, b) || DeclaresAt(bindings, q, n, b)
  {
    if DeclaredBy(bindings, q, n, b) {
      var j :| 0 <= j < n && DeclaresAt(bindings, q, j, b);
      assert DeclaresAt(bindings, q, j, b);
    }
  }

  lemma {:induction false} ReaderTracks(sh: Shader, bindings: seq<Binding>, code: seq<Word>, q: seq<Instruction>, n: nat)
    requires sh.model51 && AllUndeclared(bindings) && Legal(sh, bindings, code, q) && n <= |q|
    ensures Tracks(sh, bindings, q, n)
  {
    if n > 0 {
      ReaderTracks(sh, bindings, code, q, n - 1);
      LegalAt(sh, bindings, code, q, n - 1);
      TracksNext(sh, bindings, StateAt(sh, bindings, q, n - 1), q, n - 1);
    }
  }

  lemma TracksNext(sh: Shader, bindings: seq<Binding>, s: Progress, q: seq<Instruction>, j: nat)
    requires sh.model51 && j < |q| && InstructionOk(sh, s, q[j]) && Tracked(s.bindings, bindings, q, j)
    ensures Tracked(Next(sh, s, q[j]).bindings, bindings, q, j + 1)
  {
    StepTracks(sh, bindings, s, q, j);
    forall b | 0 <= b < |bindings|
      ensures DeclaredBy(bindings, q, j + 1, b) <==> DeclaredBy(bindings, q, j, b) || DeclaresAt(bindings, q, j, b)
    {
      DeclaredNext(bindings, q, j, b);
    }
  }

  lemma StepTracks(sh: Shader, bindings: seq<Binding>, s: Progress, q: seq<Instruction>, j: nat)
    requires sh.model51 && j < |q| && InstructionOk(sh, s, q[j]) && SameTable(s.bindings, bindings)
    ensures var now := Next(sh, s, q[j]).bindings;
            && SameTable(now, bindings)
            && forall b :: 0 <= b < |bindings| ==>
                 (now[b].declared <==> s.bindings[b].declared || DeclaresAt(bindings, q, j, b))
  {
    if q[j].Declare? && DeclaresResource(Opcode(q[j].token)) {
      DeclarationFacts(sh, bindings, s, q[j]);
    }
  }

  /** No entry is declared twice. */
  lemma DeclaredOnce(sh: Shader, bindings: seq<Binding>, code: seq<Word>, q: seq<Instruction>, j: nat, j': nat, b: nat)
    requires sh.model51 && AllUndeclared(bindings) && Legal(sh, bindings, code, q) && j < |q| && j' < |q|
    requires DeclaresAt(bindings, q, j, b) && DeclaresAt(bindings, q, j', b)
    ensures j == j'
  {
    var later := if j < j' then j' else j;
    ReaderTracks(sh, bindings, code, q, later);
    LegalAt(sh, bindings, code, q, later);
    DeclarationFacts(sh, bindings, StateAt(sh, bindings, q, later), q[later]);
  }

  /** A step leaves the declared size of an entry alone unless it declares that entry. */
  lemma SizeStays(sh: Shader, bindings: seq<Binding>, s: Progress, q: seq<Instruction>, j: nat, b: nat)
    requires sh.model51 && j < |q| && InstructionOk(sh, s, q[j]) && SameTable(s.bindings, bindings) && b < |bindings|
    ensures var now := Next(sh, s, q[j]).bindings;
            && |now| == |bindings|
            && (!DeclaresAt(bindings, q, j, b) ==> now[b].vectorCount == s.bindings[b].vectorCount)
            && (DeclaresAt(bindings, q, j, b) && Opcode(q[j].token) == 89 ==>
                  q[j].trailing != [] && now[b].vectorCount == q[j].trailing[0])
  {
    if q[j].Declare? && DeclaresResource(Opcode(q[j].token)) {
      DeclarationFacts(sh, bindings, s, q[j]);
    }
  }

  /** The reader keeps the size that the declaration of a constant buffer gave. */
  lemma {:induction false} SizeTracks(
    sh: Shader, bindings: seq<Binding>, code: seq<Word>, q: seq<Instruction>, j: nat, n: nat, b: nat)
    requires sh.model51 && AllUndeclared(bindings) && Legal(sh, bindings, code, q) && j < n <= |q| && b < |bindings|
    requires DeclaresAt(bindings, q, j, b) && Opcode(q[j].token) == 89
    ensures |StateAt(sh, bindings, q, n).bindings| == |bindings| && q[j].trailing != []
    ensures StateAt(sh, bindings, q, n).bindings[b].vectorCount == q[j].trailing[0]
    decreases n
  {
    var m := n - 1;
    ReaderTracks(sh, bindings, code, q, m);
    LegalAt(sh, bindings, code, q, m);
    SizeStays(sh, bindings, StateAt(sh, bindings, q, m), q, m, b);
    if j < m {
      SizeTracks(sh, bindings, code, q, j, m, b);
      if DeclaresAt(bindings, q, m, b) { DeclaredOnce(sh, bindings, code, q, j, m, b); }
    }
  }

  /** A known vector of a constant buffer lies inside the size its declaration gave, unless that is 0. */
  lemma ConstantsInRange(
    data: seq<Byte>, pixel: bool, c: Container.Container, bindings: seq<Binding>, q: seq<Instruction>,
    contract: Contract, i: nat, k: nat)
    returns (j: nat, b: nat)
    requires IsShader(data, pixel, c, bindings, q, contract) && Model51(c)
    requires i < |q| && q[i].Execute? && k < |q[i].operands| && Kind(q[i].operands[k].token) == CONSTANT_BUFFER
    requires ImmediateAt(q[i].operands[k], 2)
    ensures j < i && DeclaresAt(bindings, q, j, b) && Opcode(q[j].token) == 89 && q[j].trailing != []
    ensures q[j].trailing[0] != 0 ==> IndexWord(q[i].operands[k], 2) < q[j].trailing[0]
  {
    var sh, code := ShaderOf(c, pixel, contract), CodeWords(data, c.code);
    j, b := ResourceDeclared(data, pixel, c, bindings, q, contract, i, k);
    TableUndeclared(Payload(data, c.resources), c.stage, c.major, true, bindings);
    BufferOpcode(sh, bindings, code, q, j, b, q[i].operands[k]);
    SizeTracks(sh, bindings, code, q, j, i, b);
    VectorFacts(sh, bindings, code, q, i, k, b);
  }

  /** What declares a constant buffer is opcode 89. */
  lemma BufferOpcode(sh: Shader, bindings: seq<Binding>, code: seq<Word>, q: seq<Instruction>, j: nat, b: nat, t: Operand)
    requires sh.model51 && Legal(sh, bindings, code, q) && j < |q| && DeclaresAt(bindings, q, j, b)
    requires Kind(t.token) == CONSTANT_BUFFER && Find(bindings, Kind(t.token), IndexWord(t, 0)) == Some(b)
    ensures Opcode(q[j].token) == 89
  {
    LegalAt(sh, bindings, code, q, j);
    FindFirst(bindings, Kind(t.token), IndexWord(t, 0), 0);
    FindFirst(bindings, Kind(q[j].operand.token), IndexWord(q[j].operand, 0), 0);
    assert DeclarationOk(sh, StateAt(sh, bindings, q, j), Opcode(q[j].token), q[j].operand, q[j].trailing);
  }

  lemma VectorFacts(sh: Shader, bindings: seq<Binding>, code: seq<Word>, q: seq<Instruction>, i: nat, k: nat, b: nat)
    requires sh.model51 && AllUndeclared(bindings) && Legal(sh, bindings, code, q) && i < |q| && q[i].Execute? && k < |q[i].operands|
    requires Kind(q[i].operands[k].token) == CONSTANT_BUFFER && ImmediateAt(q[i].operands[k], 2)
    requires Find(bindings, CONSTANT_BUFFER, IndexWord(q[i].operands[k], 0)) == Some(b)
    ensures |StateAt(sh, bindings, q, i).bindings| == |bindings|
    ensures var size := StateAt(sh, bindings, q, i).bindings[b].vectorCount; size != 0 ==> IndexWord(q[i].operands[k], 2) < size
  {
    var s, t := StateAt(sh, bindings, q, i), q[i].operands[k];
    ReaderTracks(sh, bindings, code, q, i);
    LegalAt(sh, bindings, code, q, i);
    OperandOkAt(sh, s, q[i], k);
    assert UseOk(s.bindings, t);
    FindSame(s.bindings, bindings, Kind(t.token), IndexWord(t, 0), 0);
  }

  lemma TableUndeclared(s: seq<Byte>, stage: nat, major: nat, model51: bool, bindings: seq<Binding>)
    requires IsTable(s, stage, major, model51, bindings)
    ensures AllUndeclared(bindings)
  {
  }

  /**
    A resource operand of an executed 5.1 instruction names an entry of the
    resource table that exactly one instruction declares, an earlier one, with
    the range and space of the entry; a known register lies in that range.
  */
  lemma ResourceDeclared(
    data: seq<Byte>, pixel: bool, c: Container.Container, bindings: seq<Binding>, q: seq<Instruction>,
    contract: Contract, i: nat, k: nat)
    returns (j: nat, b: nat)
    requires IsShader(data, pixel, c, bindings, q, contract) && Model51(c)
    requires i < |q| && q[i].Execute? && k < |q[i].operands| && IsBound(Kind(q[i].operands[k].token))
    ensures j < i && b < |bindings| && DeclaresAt(bindings, q, j, b)
    ensures var t := q[i].operands[k];
            && Find(bindings, Kind(t.token), IndexWord(t, 0)) == Some(b) && ImmediateAt(t, 0)
            && (ImmediateAt(t, 1) ==> bindings[b].first <= IndexWord(t, 1) <= bindings[b].last)
    ensures q[j].trailing != [] && bindings[b].space == q[j].trailing[|q[j].trailing| - 1]
    ensures bindings[b].first == IndexWord(q[j].operand, 1) && bindings[b].last == IndexWord(q[j].operand, 2)
    ensures forall j' :: 0 <= j' < |q| && DeclaresAt(bindings, q, j', b) ==> j' == j
  {
    var sh, code := ShaderOf(c, pixel, contract), CodeWords(data, c.code);
    TableUndeclared(Payload(data, c.resources), c.stage, c.major, true, bindings);
    ReaderTracks(sh, bindings, code, q, i);
    b := UseFacts(sh, bindings, code, q, i, k);
    j :| 0 <= j < i && DeclaresAt(bindings, q, j, b);
    ReaderTracks(sh, bindings, code, q, j);
    LegalAt(sh, bindings, code, q, j);
    DeclarationFacts(sh, bindings, StateAt(sh, bindings, q, j), q[j]);
    forall j' | 0 <= j' < |q| && DeclaresAt(bindings, q, j', b) ensures j' == j {
      DeclaredOnce(sh, bindings, code, q, j, j', b);
    }
  }

  lemma UseFacts(sh: Shader, bindings: seq<Binding>, code: seq<Word>, q: seq<Instruction>, i: nat, k: nat)
    returns (b: nat)
    requires sh.model51 && Legal(sh, bindings, code, q) && i < |q| && Tracks(sh, bindings, q, i)
    requires q[i].Execute? && k < |q[i].operands| && IsBound(Kind(q[i].operands[k].token))
    ensures b < |bindings| && DeclaredBy(bindings, q, i, b)
    ensures var t := q[i].operands[k];
            && Find(bindings, Kind(t.token), IndexWord(t, 0)) == Some(b) && ImmediateAt(t, 0)
            && (ImmediateAt(t, 1) ==> bindings[b].first <= IndexWord(t, 1) <= bindings[b].last)
  {
    var s, t := StateAt(sh, bindings, q, i), q[i].operands[k];
    LegalAt(sh, bindings, code, q, i);
    OperandOkAt(sh, s, q[i], k);
    assert UseOk(s.bindings, t);
    FindSame(s.bindings, bindings, Kind(t.token), IndexWord(t, 0), 0);
    b := Find(s.bindings, Kind(t.token), IndexWord(t, 0)).value;
    assert SameIdentity(s.bindings[b], bindings[b]);
  }

  /** Every entry of the table is declared by exactly one instruction. */
  lemma EveryEntryDeclared(
    data: seq<Byte>, pixel: bool, c: Container.Container, bindings: seq<Binding>, q: seq<Instruction>,
    contract: Contract, b: nat)
    returns (j: nat)
    requires IsShader(data, pixel, c, bindings, q, contract) && Model51(c) && b < |bindings|
    ensures j < |q| && DeclaresAt(bindings, q, j, b)
    ensures forall j' :: 0 <= j' < |q| && DeclaresAt(bindings, q, j', b) ==> j' == j
  {
    var sh, code := ShaderOf(c, pixel, contract), CodeWords(data, c.code);
    TableUndeclared(Payload(data, c.resources), c.stage, c.major, true, bindings);
    ReaderTracks(sh, bindings, code, q, |q|);
    assert StateAt(sh, bindings, q, |q|).bindings[b].declared;
    j :| 0 <= j < |q| && DeclaresAt(bindings, q, j, b);
    forall j' | 0 <= j' < |q| && DeclaresAt(bindings, q, j', b) ensures j' == j {
      DeclaredOnce(sh, bindings, code, q, j, j', b);
    }
  }

  /** Registers of one class and space never belong to two entries of an accepted table. */
  lemma EntriesDisjoint(
    data: seq<Byte>, pixel: bool, c: Container.Container, bindings: seq<Binding>, q: seq<Instruction>,
    contract: Contract, a: nat, b: nat, register: Word)
    requires IsShader(data, pixel, c, bindings, q, contract) && a < |bindings| && b < |bindings|
    requires bindings[a].operandType == bindings[b].operandType && bindings[a].space == bindings[b].space
    requires bindings[a].first <= register <= bindings[a].last
    requires bindings[b].first <= register <= bindings[b].last
    ensures a == b
  {
    RegistersOwnedOnce(bindings, a, b, register);
  }

  /** Operands nested inside an index are registers, never resources. */
  lemma IndicesAreRegisters(
    sh: Shader, bindings: seq<Binding>, t: Operand, nesting: nat, declaration: bool, i: nat)
    requires OperandOk(sh, bindings, t, nesting, declaration) && i < |t.indices| && !t.indices[i].Literal?
    ensures IndexesRegisters(t.indices[i].base) && nesting < MAX_NESTING
    ensures OperandOk(sh, bindings, t.indices[i].base, nesting + 1, false)
  {
    assert IndexOk(sh, bindings, t.token, i, t.indices[i], nesting);
    assert BaseOk(sh, bindings, t.indices[i].base, nesting);
    assert OperandOk(sh, bindings, t.indices[i].base, nesting + 1, false);
  }
}
