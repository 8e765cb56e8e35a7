/**
  Which batches can be replayed, and why the others cannot
  (src/rr_albedo_prepare.h:246-335).

  `Selection` says what is accepted and `Obstacle` what each reject reason means.
  `SelectStandardAlbedo` and `DiagnoseReject` are proved against them separately;
  `DiagnosisAgrees` relates the two.
*/
module AlbedoSelection {
  import opened ShaderBytes
  import opened KeyBits
  import opened AlbedoAccess
  import opened MaterialFamily
  import opened EyeVariants

  datatype Reason =
    | InvalidInstance | MissingCorePointers | Tessellated | MaterialTechniqueUnreadable
    | AlbedoTechniqueUnreadable | ShaderKeyUnreadable | MaterialNameUnreadable
    | UnsupportedMaterialFamily | TechniqueContractMismatch | OriginalShaderMismatch
    | AlbedoShaderLookupFailed | AlbedoShaderKeyMismatch | StageContractMismatch
    | ShaderValidatorRejected | EyeVariantNotUnique

  datatype Choice = Choice(shader: Address, kind: Admission)

  // --- What is read ---

  function MaterialTechnique(a: Access, b: Batch): Option<Address> { ReadAddress(a, b.material, 0x9A0) }

  function AlbedoTechnique(a: Access, b: Batch): Option<Address> { ReadAddress(a, b.material, 0x9D8) }

  function ShaderKey(a: Access, b: Batch): Option<Word> { ReadWord(a, b.shader, 4) }

  /** The family named by the string that a material's technique points to. */
  ghost function FamilyName(a: Access, technique: Address): Option<string>
  {
    match ReadAddress(a, technique, 0x100)
    case None => None
    case Some(name) => if name == 0 then None else FamilyAt(a, name, FAMILY_BYTES)
  }

  function TechniqueWords(a: Access, technique: Address): Option<Technique>
  {
    var forced, cleared, count := ReadWord(a, technique, 4), ReadWord(a, technique, 8), ReadWord(a, technique, 0x240);
    if forced.None? || cleared.None? || count.None? then None
    else Some(Technique(forced.value, cleared.value, count.value))
  }

  /** A vertex and a pixel shader, and no other stage. */
  predicate StagesOk(a: Access, shader: Address)
  {
    && (var vertex := ReadAddress(a, shader, 0x10); vertex.Some? && vertex.value != 0)
    && (var pixel := ReadAddress(a, shader, 0x50); pixel.Some? && pixel.value != 0)
    && ReadAddress(a, shader, 0x20) == Some(0) && ReadAddress(a, shader, 0x30) == Some(0)
    && ReadAddress(a, shader, 0x40) == Some(0) && ReadAddress(a, shader, 0x60) == Some(0)
    && ReadAddress(a, shader, 0x70) == Some(0)
  }

  function Replacement(a: Access, technique: Address, key: Key, kind: Admission): Option<Address>
  {
    a.getShader(technique, RequestedAlbedoKey(key, kind == Foliage))
  }

  /** The replacement carries the key that the lookup must have used. */
  predicate ReplacementKeyOk(a: Access, technique: Address, key: Key, kind: Admission, shader: Address)
  {
    var words := TechniqueWords(a, technique);
    && words.Some?
    && var effective := CanonicalTechniqueKey(words.value.forced, words.value.cleared, RequestedAlbedoKey(key, kind == Foliage));
       (var actual := ReadWord(a, shader, 4); actual.Some? && actual.value == effective)
  }

  // --- What is accepted ---

  predicate InstanceOk(b: Batch) { b.instanceCount > 0 && b.instanceByteOffset >= 0 }

  /** The two techniques of a batch, its key and its family, all readable and under contract. */
  ghost predicate Eligible(a: Access, b: Batch, main: Address, albedo: Address, key: Word, kind: Admission)
  {
    && b.shader != 0 && b.mesh != 0 && b.material != 0 && b.tessellated == 0
    && MaterialTechnique(a, b) == Some(main) && AlbedoTechnique(a, b) == Some(albedo) && ShaderKey(a, b) == Some(key)
    && (var family := FamilyName(a, main); family.Some? && Classify(family.value) == Some(kind))
    && TechniqueWords(a, main) == Some(ContractOf(kind).main) && TechniqueWords(a, albedo) == Some(ContractOf(kind).albedo)
    && a.getShader(main, key) == Some(b.shader)
  }

  ghost predicate Accepts(a: Access, b: Batch, choice: Choice, main: Address, albedo: Address, key: Word)
  {
    && Eligible(a, b, main, albedo, key, choice.kind)
    && if choice.kind == Eye then EyeVariant(a, albedo, b.shader) == Some(choice.shader)
       else
         && Replacement(a, albedo, key, choice.kind) == Some(choice.shader) && choice.shader != 0
         && ReplacementKeyOk(a, albedo, key, choice.kind, choice.shader) && StagesOk(a, choice.shader)
  }

  ghost predicate Selects(a: Access, b: Batch, choice: Choice)
  {
    exists main, albedo, key :: Accepts(a, b, choice, main, albedo, key)
  }

  ghost function Selection(a: Access, b: Batch): (r: Option<Choice>)
    ensures r.Some? ==> Selects(a, b, r.value)
    ensures r.None? ==> forall choice :: !Selects(a, b, choice)
  {
    if exists choice :: Selects(a, b, choice) then
      var choice :| Selects(a, b, choice);
      Some(choice)
    else None
  }

  lemma SelectionOnce(a: Access, b: Batch, choice: Choice)
    requires Selects(a, b, choice)
    ensures Selection(a, b) == Some(choice)
  {
    var other := Selection(a, b).value;
    var main, albedo, key :| Accepts(a, b, choice, main, albedo, key);
    var main', albedo', key' :| Accepts(a, b, other, main', albedo', key');
  }

  method ReadFamilyName(a: Access, technique: Address) returns (r: Option<string>)
    ensures r == FamilyName(a, technique)
  {
    var name := ReadAddress(a, technique, 0x100);
    if name.None? || name.value == 0 { return None; }
    r := ReadMaterialFamily(a, name.value, FAMILY_BYTES);
  }

  method SelectStandardAlbedo(a: Access, b: Batch) returns (r: Option<Choice>)
    ensures r == Selection(a, b)
  {
    if b.shader == 0 || b.mesh == 0 || b.material == 0 || b.tessellated != 0 { return None; }
    var main, albedo, key := MaterialTechnique(a, b), AlbedoTechnique(a, b), ShaderKey(a, b);
    if main.None? || albedo.None? || key.None? { return None; }
    var family := ReadFamilyName(a, main.value);
    if family.None? { return None; }
    var mainWords, albedoWords := TechniqueWords(a, main.value), TechniqueWords(a, albedo.value);
    if mainWords.None? || albedoWords.None? { return None; }
    var kind := Classify(family.value);
    if kind.None? { return None; }
    var expected := ContractOf(kind.value);
    if mainWords.value != expected.main || albedoWords.value != expected.albedo { return None; }
    if a.getShader(main.value, key.value) != Some(b.shader) { return None; }
    assert Eligible(a, b, main.value, albedo.value, key.value, kind.value);
    if kind.value == Eye {
      var selected, evidence := SelectEyeVariant(a, albedo.value, b.shader);
      if selected.None? { return None; }
      Chosen(a, b, Choice(selected.value, Eye), main.value, albedo.value, key.value);
      return Some(Choice(selected.value, Eye));
    }
    var shader := Replacement(a, albedo.value, key.value, kind.value);
    if shader.None? || shader.value == 0 { return None; }
    if !ReplacementKeyOk(a, albedo.value, key.value, kind.value, shader.value) || !StagesOk(a, shader.value) { return None; }
    Chosen(a, b, Choice(shader.value, kind.value), main.value, albedo.value, key.value);
    return Some(Choice(shader.value, kind.value));
  }

  lemma Chosen(a: Access, b: Batch, choice: Choice, main: Address, albedo: Address, key: Word)
    requires Accepts(a, b, choice, main, albedo, key)
    ensures Selection(a, b) == Some(choice)
  {
    SelectionOnce(a, b, choice);
  }

  // --- Why the others are not ---

  /** The order in which the reasons are looked for. */
  function Rank(r: Reason): nat
  {
    match r
    case InvalidInstance => 0
    case MissingCorePointers => 1
    case Tessellated => 2
    case MaterialTechniqueUnreadable => 3
    case ShaderKeyUnreadable => 4
    case MaterialNameUnreadable => 5
    case AlbedoTechniqueUnreadable => 6
    case UnsupportedMaterialFamily => 7
    case TechniqueContractMismatch => 8
    case OriginalShaderMismatch => 9
    case EyeVariantNotUnique => 10
    case AlbedoShaderLookupFailed => 11
    case AlbedoShaderKeyMismatch => 12
    case StageContractMismatch => 13
    case ShaderValidatorRejected => 14
  }

  ghost function KindOf(a: Access, b: Batch): Option<Admission>
  {
    match MaterialTechnique(a, b)
    case None => None
    case Some(main) =>
      match FamilyName(a, main)
      case None => None
      case Some(family) => Classify(family)
  }

  predicate TechniquesMatch(a: Access, main: Address, albedo: Address, kind: Admission)
  {
    TechniqueWords(a, main) == Some(ContractOf(kind).main) && TechniqueWords(a, albedo) == Some(ContractOf(kind).albedo)
  }

  /** What there is to find out about a batch, in the order in which it is looked at. */
  datatype Checks = Checks(
    instance: bool, pointers: bool, plain: bool, main: bool, key: bool, name: bool, albedo: bool, family: bool,
    contract: bool, original: bool, eye: bool, lookup: bool, replacementKey: bool, stages: bool)

  /** Each check that can be made; those that an earlier failure leaves without a subject are vacuous. */
  ghost function ChecksOf(a: Access, b: Batch): Checks
  {
    var main, albedo, key, kind := MaterialTechnique(a, b), AlbedoTechnique(a, b), ShaderKey(a, b), KindOf(a, b);
    var known := main.Some? && albedo.Some? && key.Some? && kind.Some?;
    var shader := if known then Replacement(a, albedo.value, key.value, kind.value) else None;
    Checks(
      InstanceOk(b),
      b.shader != 0 && b.mesh != 0 && b.material != 0,
      b.tessellated == 0,
      main.Some? && main.value != 0,
      key.Some?,
      main.Some? && FamilyName(a, main.value).Some?,
      albedo.Some? && albedo.value != 0,
      kind.Some?,
      known && TechniquesMatch(a, main.value, albedo.value, kind.value),
      known && a.getShader(main.value, key.value) == Some(b.shader),
      kind == Some(Eye) ==> known && EyeVariant(a, albedo.value, b.shader).Some?,
      kind != Some(Eye) ==> shader.Some? && shader.value != 0,
      kind != Some(Eye) ==> shader.Some? && ReplacementKeyOk(a, albedo.value, key.value, kind.value, shader.value),
      kind != Some(Eye) ==> shader.Some? && StagesOk(a, shader.value))
  }

  predicate Passes(c: Checks, r: Reason)
  {
    match r
    case InvalidInstance => c.instance
    case MissingCorePointers => c.pointers
    case Tessellated => c.plain
    case MaterialTechniqueUnreadable => c.main
    case ShaderKeyUnreadable => c.key
    case MaterialNameUnreadable => c.name
    case AlbedoTechniqueUnreadable => c.albedo
    case UnsupportedMaterialFamily => c.family
    case TechniqueContractMismatch => c.contract
    case OriginalShaderMismatch => c.original
    case EyeVariantNotUnique => c.eye
    case AlbedoShaderLookupFailed => c.lookup
    case AlbedoShaderKeyMismatch => c.replacementKey
    case StageContractMismatch => c.stages
    case ShaderValidatorRejected => true
  }

  /** The first `n` checks pass. */
  predicate Cleared(c: Checks, n: nat)
  {
    && (n > 0 ==> c.instance) && (n > 1 ==> c.pointers) && (n > 2 ==> c.plain) && (n > 3 ==> c.main)
    && (n > 4 ==> c.key) && (n > 5 ==> c.name) && (n > 6 ==> c.albedo) && (n > 7 ==> c.family)
    && (n > 8 ==> c.contract) && (n > 9 ==> c.original) && (n > 10 ==> c.eye) && (n > 11 ==> c.lookup)
    && (n > 12 ==> c.replacementKey) && (n > 13 ==> c.stages)
  }

  lemma ClearedPasses(c: Checks, n: nat, q: Reason)
    requires Cleared(c, n) && Rank(q) < n
    ensures Passes(c, q)
  {
  }

  /** `r` is the first check that fails; the validator is what is left to blame when none does. */
  predicate FirstFailure(c: Checks, r: Reason)
  {
    Cleared(c, Rank(r)) && (r == ShaderValidatorRejected || !Passes(c, r))
  }

  function Blame(c: Checks): (r: Reason)
    ensures FirstFailure(c, r)
  {
    if !c.instance then InvalidInstance
    else if !c.pointers then MissingCorePointers
    else if !c.plain then Tessellated
    else if !c.main then MaterialTechniqueUnreadable
    else if !c.key then ShaderKeyUnreadable
    else if !c.name then MaterialNameUnreadable
    else if !c.albedo then AlbedoTechniqueUnreadable
    else if !c.family then UnsupportedMaterialFamily
    else if !c.contract then TechniqueContractMismatch
    else if !c.original then OriginalShaderMismatch
    else if !c.eye then EyeVariantNotUnique
    else if !c.lookup then AlbedoShaderLookupFailed
    else if !c.replacementKey then AlbedoShaderKeyMismatch
    else if !c.stages then StageContractMismatch
    else ShaderValidatorRejected
  }

  ghost function DiagnosisOf(a: Access, b: Batch): Reason { Blame(ChecksOf(a, b)) }

  lemma FirstFailureOnce(c: Checks, r: Reason, q: Reason)
    requires FirstFailure(c, r) && FirstFailure(c, q)
    ensures r == q
  {
    if Rank(r) < Rank(q) {
      ClearedPasses(c, Rank(q), r);
    } else if Rank(q) < Rank(r) {
      ClearedPasses(c, Rank(r), q);
    }
  }

  method DiagnoseReject(a: Access, b: Batch) returns (r: Reason)
    ensures r == DiagnosisOf(a, b)
  {
    r := FindReject(a, b);
    FirstFailureOnce(ChecksOf(a, b), r, DiagnosisOf(a, b));
  }

  method FindReject(a: Access, b: Batch) returns (r: Reason)
    ensures FirstFailure(ChecksOf(a, b), r)
  {
    if b.instanceCount <= 0 || b.instanceByteOffset < 0 { return InvalidInstance; }
    if b.shader == 0 || b.mesh == 0 || b.material == 0 { return MissingCorePointers; }
    if b.tessellated != 0 { return Tessellated; }
    var main := MaterialTechnique(a, b);
    if main.None? || main.value == 0 { return MaterialTechniqueUnreadable; }
    var key := ShaderKey(a, b);
    if key.None? { return ShaderKeyUnreadable; }
    var family := ReadFamilyName(a, main.value);
    if family.None? { return MaterialNameUnreadable; }
    var albedo := AlbedoTechnique(a, b);
    if albedo.None? || albedo.value == 0 { return AlbedoTechniqueUnreadable; }
    var kind := Classify(family.value);
    if kind.None? { return UnsupportedMaterialFamily; }
    r := DiagnoseShaders(a, b, main.value, albedo.value, key.value, kind.value, ChecksOf(a, b));
  }

  /** The rest of the diagnosis, once everything about the batch's own material is known. */
  method DiagnoseShaders(
    a: Access, b: Batch, main: Address, albedo: Address, key: Word, kind: Admission, ghost c: Checks) returns (r: Reason)
    requires Cleared(c, 8)
    requires c.contract == TechniquesMatch(a, main, albedo, kind)
    requires c.original == (a.getShader(main, key) == Some(b.shader))
    requires c.eye == (kind == Eye ==> EyeVariant(a, albedo, b.shader).Some?)
    requires kind == Eye ==> c.lookup && c.replacementKey && c.stages
    requires kind != Eye ==>
               var shader := Replacement(a, albedo, key, kind);
               && c.lookup == (shader.Some? && shader.value != 0)
               && (shader.Some? ==> c.replacementKey == ReplacementKeyOk(a, albedo, key, kind, shader.value))
               && (shader.Some? ==> c.stages == StagesOk(a, shader.value))
    ensures FirstFailure(c, r)
  {
    if !TechniquesMatch(a, main, albedo, kind) { return TechniqueContractMismatch; }
    if a.getShader(main, key) != Some(b.shader) { return OriginalShaderMismatch; }
    if kind == Eye {
      var selected, evidence := SelectEyeVariant(a, albedo, b.shader);
      return if selected.Some? then ShaderValidatorRejected else EyeVariantNotUnique;
    }
    var shader := Replacement(a, albedo, key, kind);
    if shader.None? || shader.value == 0 { return AlbedoShaderLookupFailed; }
    if !ReplacementKeyOk(a, albedo, key, kind, shader.value) { return AlbedoShaderKeyMismatch; }
    if !StagesOk(a, shader.value) { return StageContractMismatch; }
    return ShaderValidatorRejected;
  }

  /** A technique at the null address has nothing to read. */
  lemma NullTechnique(a: Access)
    ensures TechniqueWords(a, 0).None? && FamilyName(a, 0).None?
  {
  }

  lemma AcceptedPasses(a: Access, b: Batch, choice: Choice, main: Address, albedo: Address, key: Word, r: Reason)
    requires Accepts(a, b, choice, main, albedo, key) && InstanceOk(b)
    ensures Passes(ChecksOf(a, b), r)
  {
    NullTechnique(a);
  }

  lemma ClearedIsAccepted(a: Access, b: Batch)
    requires Cleared(ChecksOf(a, b), 14)
    ensures InstanceOk(b) && Selection(a, b).Some?
  {
    var main, albedo, key, kind := MaterialTechnique(a, b).value, AlbedoTechnique(a, b).value, ShaderKey(a, b).value, KindOf(a, b).value;
    var shader := if kind == Eye then EyeVariant(a, albedo, b.shader).value else Replacement(a, albedo, key, kind).value;
    Chosen(a, b, Choice(shader, kind), main, albedo, key);
  }

  /**
    The two functions agree: a batch with a valid instance is put down to the
    validator exactly when the selector accepts it.
  */
  lemma DiagnosisAgrees(a: Access, b: Batch)
    ensures DiagnosisOf(a, b) == ShaderValidatorRejected <==> InstanceOk(b) && Selection(a, b).Some?
  {
    var r := DiagnosisOf(a, b);
    if InstanceOk(b) && Selection(a, b).Some? {
      var choice := Selection(a, b).value;
      var main, albedo, key :| Accepts(a, b, choice, main, albedo, key);
      AcceptedPasses(a, b, choice, main, albedo, key, r);
    }
    if r == ShaderValidatorRejected {
      ClearedIsAccepted(a, b);
    }
  }
}
