/**
  Validation of native shader pairs, with its memo and its store of pixel shaders
  (src/rr_albedo_shader.h:504-627).  What the engine answers to each read is a
  parameter and may differ from call to call.
*/
module ShaderSession {
  import opened ShaderBytes
  import ShaderParser
  import Container = ShaderContainer
  import Program = ShaderProgram
  import Resources = ShaderResources

  type Contract = ShaderParser.Contract

  const MAX_BLOB := 0x4_0000
  const MIN_BLOB := 32
  const MAX_COPIED := 0x100_0000
  const MAX_PAIRS := 128

  datatype Verdict = Verdict(targetCount: nat, selected: nat)

  const NOTHING := Verdict(0, 0)

  datatype CachedPair = CachedPair(original: nat, albedo: nat, verdict: Verdict, valid: bool)

  /** A pixel shader; its contract once it was accepted. */
  datatype Captured = Captured(bytes: seq<Byte>, hash: nat, contract: Option<Contract>)

  /** What one read of a resident shader gives: nothing to copy (or no room for it), a copy that cannot be trusted, or the bytes. */
  datatype Fetch = NoDescriptor | Untrusted(size: nat) | Copied(bytes: seq<Byte>)

  /** One call with what the engine answers; `pairRoom` and `shaderRoom` when there is memory to remember the pair or a shader. */
  datatype Call = Call(
    getter: bool, original: nat, albedo: nat, engine: nat -> Fetch, pairRoom: bool, shaderRoom: bool)

  datatype State = State(pairs: seq<CachedPair>, shaders: seq<Captured>, copied: nat)

  const EMPTY := State([], [], 0)

  // --- What acceptance means ---

  ghost predicate Accepted(bytes: seq<Byte>, pixel: bool, contract: Contract)
  {
    exists c: Container.Container, bindings: seq<Resources.Binding>, q: seq<Program.Instruction> ::
      ShaderParser.IsShader(bytes, pixel, c, bindings, q, contract)
  }

  lemma AcceptedOnce(bytes: seq<Byte>, pixel: bool, a: Contract, b: Contract)
    requires Accepted(bytes, pixel, a) && Accepted(bytes, pixel, b)
    ensures a == b
  {
    var c, bindings, q :| ShaderParser.IsShader(bytes, pixel, c, bindings, q, a);
    var c', bindings', q' :| ShaderParser.IsShader(bytes, pixel, c', bindings', q', b);
    ShaderParser.ShaderUnique(bytes, pixel, c, bindings, q, a, c', bindings', q', b);
  }

  /** An accepted pixel shader has one target or two. */
  lemma AcceptedTargets(bytes: seq<Byte>, contract: Contract)
    requires Accepted(bytes, true, contract)
    ensures 1 <= contract.targetCount <= 2
  {
    var c, bindings, q :| ShaderParser.IsShader(bytes, true, c, bindings, q, contract);
  }

  ghost function ContractOf(bytes: seq<Byte>, pixel: bool): (r: Option<Contract>)
    ensures r.Some? ==> Accepted(bytes, pixel, r.value)
    ensures r.None? ==> forall contract :: !Accepted(bytes, pixel, contract)
  {
    if exists contract :: Accepted(bytes, pixel, contract) then
      var contract :| Accepted(bytes, pixel, contract);
      Some(contract)
    else None
  }

  method Examine(bytes: seq<Byte>, pixel: bool) returns (r: Option<Contract>)
    ensures r == ContractOf(bytes, pixel)
  {
    r := ShaderParser.Parse(bytes, pixel);
    if r.Some? {
      assert Accepted(bytes, pixel, r.value);
      AcceptedOnce(bytes, pixel, r.value, ContractOf(bytes, pixel).value);
    }
  }

  // --- The session on values ---

  /** How a blob is examined; the session relies only on its being a function. */
  type Exam = (seq<Byte>, bool) -> Option<Contract>

  ghost predicate Examines(exam: Exam)
  {
    forall bytes, pixel {:trigger ContractOf(bytes, pixel)} :: exam(bytes, pixel) == ContractOf(bytes, pixel)
  }

  lemma Examiner() returns (exam: Exam)
    ensures Examines(exam)
  {
    exam := (bytes: seq<Byte>, pixel: bool) => ContractOf(bytes, pixel);
  }

  method ExamineBy(bytes: seq<Byte>, pixel: bool, ghost exam: Exam) returns (r: Option<Contract>)
    requires Examines(exam)
    ensures r == exam(bytes, pixel)
  {
    r := Examine(bytes, pixel);
  }

  function SizeOf(f: Fetch): nat
  {
    match f
    case NoDescriptor => 0
    case Untrusted(size) => size
    case Copied(bytes) => |bytes|
  }

  /** The bytes read, and how much has been copied since; a copy that cannot be trusted still counts. */
  datatype Reading = Reading(copied: nat, bytes: Option<seq<Byte>>)

  function Read(copied: nat, f: Fetch): (r: Reading)
    ensures r.bytes.Some? ==> f == Copied(r.bytes.value) && r.copied == copied + |r.bytes.value| && MIN_BLOB <= |r.bytes.value| <= MAX_BLOB
    ensures copied <= MAX_COPIED ==> copied <= r.copied <= MAX_COPIED
  {
    if f.NoDescriptor? || SizeOf(f) < MIN_BLOB || SizeOf(f) > MAX_BLOB || copied + SizeOf(f) > MAX_COPIED then Reading(copied, None)
    else Reading(copied + SizeOf(f), if f.Copied? then Some(f.bytes) else None)
  }

  /** The position of a pair in the memo; its length when it is not there. */
  function Lookup(pairs: seq<CachedPair>, original: nat, albedo: nat, i: nat): (r: nat)
    requires i <= |pairs|
    ensures i <= r <= |pairs| && (r < |pairs| ==> pairs[r].original == original && pairs[r].albedo == albedo)
    ensures forall k :: i <= k < r ==> !(pairs[k].original == original && pairs[k].albedo == albedo)
    decreases |pairs| - i
  {
    if i == |pairs| || (pairs[i].original == original && pairs[i].albedo == albedo) then i
    else Lookup(pairs, original, albedo, i + 1)
  }

  /** The position of a pixel shader in the store; its length when it is new. */
  function FindShader(shaders: seq<Captured>, bytes: seq<Byte>, i: nat): (r: nat)
    requires i <= |shaders|
    ensures i <= r <= |shaders| && (r < |shaders| ==> shaders[r].bytes == bytes)
    ensures forall k :: i <= k < r ==> shaders[k].bytes != bytes
    decreases |shaders| - i
  {
    if i == |shaders| || shaders[i].bytes == bytes then i else FindShader(shaders, bytes, i + 1)
  }

  function Store(shaders: seq<Captured>, shader: Captured): seq<Captured>
  {
    if FindShader(shaders, shader.bytes, 0) == |shaders| then shaders + [shader] else shaders
  }

  predicate Storable(shaders: seq<Captured>, bytes: seq<Byte>, room: bool)
  {
    room || FindShader(shaders, bytes, 0) < |shaders|
  }

  datatype Judged = Judged(state: State, valid: bool, verdict: Verdict)

  /** The three reads, each only when the one before it succeeded. */
  function Judge(s: State, c: Call, hash: seq<Byte> -> nat, exam: Exam): Judged
  {
    AfterOriginal(s, c, hash, exam, Read(s.copied, c.engine(0)))
  }

  function AfterOriginal(s: State, c: Call, hash: seq<Byte> -> nat, exam: Exam, vertex: Reading): Judged
  {
    if vertex.bytes.None? then Judged(s.(copied := vertex.copied), false, NOTHING)
    else AfterAlbedo(s, c, hash, exam, vertex.bytes.value, Read(vertex.copied, c.engine(1)))
  }

  function AfterAlbedo(s: State, c: Call, hash: seq<Byte> -> nat, exam: Exam, vertex: seq<Byte>, albedo: Reading): Judged
  {
    if albedo.bytes.None? then Judged(s.(copied := albedo.copied), false, NOTHING)
    else AfterPixel(s, c, hash, exam, vertex, albedo.bytes.value, Read(albedo.copied, c.engine(2)))
  }

  /** The pixel shader is stored whatever becomes of the pair. */
  function AfterPixel(
    s: State, c: Call, hash: seq<Byte> -> nat, exam: Exam, vertex: seq<Byte>, albedo: seq<Byte>, pixel: Reading): Judged
  {
    if pixel.bytes.None? || !Storable(s.shaders, pixel.bytes.value, c.shaderRoom) then Judged(s.(copied := pixel.copied), false, NOTHING)
    else
      Compare(s.(copied := pixel.copied, shaders := Store(s.shaders, Captured(pixel.bytes.value, hash(pixel.bytes.value), None))),
              FindShader(s.shaders, pixel.bytes.value, 0), exam, vertex, albedo)
  }

  function Compare(s: State, selected: nat, exam: Exam, vertex: seq<Byte>, albedo: seq<Byte>): Judged
  {
    if selected >= |s.shaders| || vertex != albedo || exam(vertex, false).None? then Judged(s, false, Verdict(0, selected))
    else Accept(s, selected, exam(s.shaders[selected].bytes, true))
  }

  function Accept(s: State, selected: nat, contract: Option<Contract>): Judged
    requires selected < |s.shaders|
  {
    if contract.None? then Judged(s, false, Verdict(0, selected))
    else Judged(s.(shaders := s.shaders[selected := s.shaders[selected].(contract := contract)]), true,
                Verdict(contract.value.targetCount, selected))
  }

  function Remember(j: Judged, original: nat, albedo: nat): Judged
  {
    j.(state := j.state.(pairs := j.state.pairs + [CachedPair(original, albedo, j.verdict, j.valid)]))
  }

  /** Judging a pair does not look at the memo. */
  lemma JudgeIgnoresMemo(s: State, pairs: seq<CachedPair>, c: Call, hash: seq<Byte> -> nat, exam: Exam)
    ensures var j, k := Judge(s, c, hash, exam), Judge(s.(pairs := pairs), c, hash, exam);
            && k.valid == j.valid && k.verdict == j.verdict
            && k.state.shaders == j.state.shaders && k.state.copied == j.state.copied
            && k.state.pairs == pairs && j.state.pairs == s.pairs
  {
  }

  function Recall(s: State, p: CachedPair): Judged { Judged(s, p.valid, p.verdict) }

  function Step(s: State, c: Call, hash: seq<Byte> -> nat, exam: Exam): Judged
  {
    if !c.getter then Judged(s, false, NOTHING)
    else if Lookup(s.pairs, c.original, c.albedo, 0) < |s.pairs| then Recall(s, s.pairs[Lookup(s.pairs, c.original, c.albedo, 0)])
    else if |s.pairs| >= MAX_PAIRS || !c.pairRoom then Judged(s, false, NOTHING)
    else Remember(Judge(s, c, hash, exam), c.original, c.albedo)
  }

  // --- The session in place ---

  class Session {
    const hash: seq<Byte> -> nat
    var pairs: seq<CachedPair>
    var shaders: seq<Captured>
    var copied: nat

    constructor (hash: seq<Byte> -> nat)
      ensures Current() == EMPTY && Valid() && this.hash == hash
    {
      this.hash, pairs, shaders, copied := hash, [], [], 0;
    }

    function Current(): State
      reads this
    {
      State(pairs, shaders, copied)
    }

    /** The stored hashes are those of the bytes, so comparing them first changes nothing. */
    predicate Valid()
      reads this
    {
      forall i :: 0 <= i < |shaders| ==> shaders[i].hash == hash(shaders[i].bytes)
    }

    method ReadBlob(f: Fetch) returns (bytes: Option<seq<Byte>>)
      requires Valid() && copied <= MAX_COPIED
      modifies this`copied
      ensures Valid() && Reading(copied, bytes) == Read(old(copied), f)
    {
      if f.NoDescriptor? || SizeOf(f) < MIN_BLOB || SizeOf(f) > MAX_BLOB { return None; }
      var size := SizeOf(f);
      if size > MAX_COPIED - copied { return None; }
      copied := copied + size;
      if !f.Copied? { return None; }
      return Some(f.bytes);
    }

    /** The store's own copy of a pixel shader, if there is one or room for it. */
    method Keep(pixel: seq<Byte>, room: bool) returns (kept: bool, selected: nat)
      requires Valid()
      modifies this`shaders
      ensures Valid() && selected == FindShader(old(shaders), pixel, 0) && kept == Storable(old(shaders), pixel, room)
      ensures kept ==> shaders == Store(old(shaders), Captured(pixel, hash(pixel), None)) && selected < |shaders|
      ensures !kept ==> shaders == old(shaders)
    {
      var h := hash(pixel);
      selected := 0;
      while selected < |shaders| && !(shaders[selected].hash == h && shaders[selected].bytes == pixel)
        invariant selected <= |shaders| && FindShader(shaders, pixel, 0) == FindShader(shaders, pixel, selected)
      {
        selected := selected + 1;
      }
      kept := room || selected < |shaders|;
      if kept && selected == |shaders| { shaders := shaders + [Captured(pixel, h, None)]; }
    }

    method FindPair(original: nat, albedo: nat) returns (i: nat)
      ensures i == Lookup(pairs, original, albedo, 0)
    {
      i := 0;
      while i < |pairs| && !(pairs[i].original == original && pairs[i].albedo == albedo)
        invariant i <= |pairs| && Lookup(pairs, original, albedo, 0) == Lookup(pairs, original, albedo, i)
      {
        i := i + 1;
      }
    }

    method JudgePair(c: Call, ghost exam: Exam) returns (valid: bool, verdict: Verdict)
      requires Valid() && copied <= MAX_COPIED && Examines(exam)
      modifies this`shaders, this`copied
      ensures Valid() && Judged(Current(), valid, verdict) == Judge(old(Current()), c, hash, exam)
    {
      var vertex := ReadBlob(c.engine(0));
      if vertex.None? { return false, NOTHING; }
      var albedo := ReadBlob(c.engine(1));
      if albedo.None? { return false, NOTHING; }
      var pixel := ReadBlob(c.engine(2));
      if pixel.None? { return false, NOTHING; }
      var kept, selected := Keep(pixel.value, c.shaderRoom);
      if !kept { return false, NOTHING; }
      valid, verdict := CompareBlobs(selected, vertex.value, albedo.value, exam);
    }

    method CompareBlobs(selected: nat, vertex: seq<Byte>, albedo: seq<Byte>, ghost exam: Exam) returns (valid: bool, verdict: Verdict)
      requires Valid() && selected < |shaders| && Examines(exam)
      modifies this`shaders
      ensures Valid() && Judged(Current(), valid, verdict) == Compare(old(Current()), selected, exam, vertex, albedo)
    {
      if vertex != albedo { return false, Verdict(0, selected); }
      var ignored := ExamineBy(vertex, false, exam);
      if ignored.None? { return false, Verdict(0, selected); }
      var contract := ExamineBy(shaders[selected].bytes, true, exam);
      if contract.None? { return false, Verdict(0, selected); }
      shaders := shaders[selected := shaders[selected].(contract := contract)];
      return true, Verdict(contract.value.targetCount, selected);
    }

    method ValidatePair(c: Call, ghost exam: Exam) returns (valid: bool, verdict: Verdict)
      requires Valid() && copied <= MAX_COPIED && Examines(exam)
      modifies this
      ensures Valid() && copied <= MAX_COPIED
      ensures Judged(Current(), valid, verdict) == Step(old(Current()), c, hash, exam)
    {
      if !c.getter { return false, NOTHING; }
      var i := FindPair(c.original, c.albedo);
      if i < |pairs| { return pairs[i].valid, pairs[i].verdict; }
      if |pairs| >= MAX_PAIRS || !c.pairRoom { return false, NOTHING; }
      valid, verdict := JudgeNew(c, exam);
    }

    /** A new pair is in the memo, as not valid, while it is judged. */
    method JudgeNew(c: Call, ghost exam: Exam) returns (valid: bool, verdict: Verdict)
      requires Valid() && copied <= MAX_COPIED && Examines(exam)
      modifies this
      ensures Valid() && copied <= MAX_COPIED
      ensures Judged(Current(), valid, verdict) == Remember(Judge(old(Current()), c, hash, exam), c.original, c.albedo)
    {
      ghost var s := Current();
      pairs := pairs + [CachedPair(c.original, c.albedo, NOTHING, false)];
      JudgeIgnoresMemo(s, pairs, c, hash, exam);
      valid, verdict := JudgePair(c, exam);
      pairs := pairs[|pairs| - 1 := CachedPair(c.original, c.albedo, verdict, valid)];
    }
  }
}
