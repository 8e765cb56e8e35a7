/**
  What the batch that replaces a source batch is, in the engine's own terms: its
  key, its stages, its material's contract and its family's name
  (src/rr_albedo_prepare.h:134-209, 297-335, 360-375, src/rr_eye_variants.h:5-51).
*/
module AlbedoReplacement {
  import opened ShaderBytes
  import opened KeyBits
  import opened AlbedoAccess
  import opened MaterialFamily
  import opened EyeVariants
  import opened AlbedoSelection
  import opened AlbedoPrepare

  // --- Reading ---

  const TOP := 0x1_0000_0000_0000_0000

  /** A read gives what stands at the sum of base and offset, if the base is not null and all its bytes are inside the address space. */
  lemma ReadsAre(a: Access, p: Address, offset: nat)
    ensures ReadByte(a, p, offset) == if p != 0 && p + offset < TOP then a.byteAt(p + offset) else None
    ensures ReadWord(a, p, offset) == if p != 0 && p + offset + 4 <= TOP then a.wordAt(p + offset) else None
    ensures ReadAddress(a, p, offset) == if p != 0 && p + offset + 8 <= TOP then a.addressAt(p + offset) else None
  {
  }

  /** Batches stand 40 bytes apart. */
  lemma BatchesAre(a: Access, p: Address, i: nat)
    ensures ReadBatch(a, p, i) == if p != 0 && p + 40 * i + 40 <= TOP then a.batchAt(p + 40 * i) else None
  {
  }

  // --- One batch ---

  /** What a source batch must be for its replacement to be asked for. */
  predicate Plain(m: Manager, b: Batch)
  {
    && b.instanceCount > 0 && b.instanceByteOffset >= 0 && b.instanceBufferIndex < m.instanceBuffers
    && b.shader != 0 && b.mesh != 0 && b.material != 0 && b.tessellated == 0
  }

  /** A batch is kept exactly when it is plain, a replacement is selected, and the validator, if any, accepts it; only its shader changes. */
  lemma KeptIff(a: Access, m: Manager, i: nat, kept: Batch, kind: Admission)
    ensures FateOf(a, m, i) == Keep(kept, kind) <==>
            exists b, choice ::
              && ReadBatch(a, m.batches, i) == Some(b) && Plain(m, b) && Selects(a, b, choice) && choice.kind == kind
              && kept == b.(shader := choice.shader)
              && (a.validateShader.Some? ==> a.validateShader.value(b.shader, choice.shader))
  {
    var source := ReadBatch(a, m.batches, i);
    if source.Some? {
      var b := source.value;
      forall choice | Selects(a, b, choice) ensures Selection(a, b) == Some(choice) { SelectionOnce(a, b, choice); }
    }
  }

  // --- Its key ---

  /** The bits that the albedo technique of a family clears. */
  function ClearedBits(kind: Admission): set<nat>
  {
    match kind
    case Standard => {}
    case Character => {6}
    case Cloth => {0}
    case Foliage => {2, 3, 4, 5}
    case Hair => {0, 1, 2, 3}
    case Eye => {}
  }

  lemma FourLow(i: nat)
    ensures Bit(0x0F, i) <==> i in {0, 1, 2, 3}
  {
    assert Bit(0x0F, i) <==> (i == 0 || Bit(7, i - 1));
    assert i > 0 ==> (Bit(7, i - 1) <==> (i == 1 || Bit(3, i - 2)));
    assert i > 1 ==> (Bit(3, i - 2) <==> (i == 2 || Bit(1, i - 3)));
    assert i > 2 ==> (Bit(1, i - 3) <==> (i == 3 || Bit(0, i - 4)));
    if i > 3 { ZeroBit(i - 4); }
  }

  lemma FourHigher(i: nat)
    ensures Bit(0x3C, i) <==> i in {2, 3, 4, 5}
  {
    assert i > 0 ==> (Bit(0x3C, i) <==> Bit(0x1E, i - 1));
    assert i > 1 ==> (Bit(0x1E, i - 1) <==> Bit(0x0F, i - 2));
    if i > 1 { FourLow(i - 2); }
  }

  lemma ClearedMask(kind: Admission, i: nat)
    ensures Bit(ContractOf(kind).albedo.cleared, i) <==> i in ClearedBits(kind)
  {
    match kind
    case Standard => ZeroBit(i);
    case Character => SixthBit(i);
    case Cloth => PowerBit(0, i);
    case Foliage => FourHigher(i);
    case Hair => FourLow(i);
    case Eye => ZeroBit(i);
  }

  lemma SixthBit(i: nat)
    ensures Bit(64, i) <==> i == 6
  {
    assert Power(3) == 2 * Power(2) == 8;
    PowerSum(3, 3);
    PowerBit(6, i);
  }

  /** The key a family's albedo technique uses for the original's key. */
  function EffectiveKey(kind: Admission, key: Key): Key
  {
    var words := ContractOf(kind).albedo;
    CanonicalTechniqueKey(words.forced, words.cleared, RequestedAlbedoKey(key, kind == Foliage))
  }

  lemma EffectiveBits(kind: Admission, key: Key, i: nat)
    requires kind != Eye
    ensures Bit(EffectiveKey(kind, key), i) <==>
            i !in ClearedBits(kind) && (i == 25 || (i == 1 && kind != Foliage) || (Bit(key, i) && i != 22 && i != 31))
  {
    var words := ContractOf(kind).albedo;
    CanonicalBit(words.forced, words.cleared, RequestedAlbedoKey(key, kind == Foliage), i);
    RequestedBit(key, kind == Foliage, i);
    ClearedMask(kind, i);
    ForcedBits(i);
  }

  lemma KeysRead(a: Access, b: Batch, choice: Choice, main: Address, albedo: Address, key: Word)
    requires Accepts(a, b, choice, main, albedo, key) && choice.kind != Eye
    ensures ReadWord(a, b.shader, 4) == Some(key)
    ensures var own := ReadWord(a, choice.shader, 4); own.Some? && own.value == EffectiveKey(choice.kind, key)
  {
  }

  /**
    The key of a replacement, bit by bit: that of the original without bits 22 and 31,
    with bit 25 and, except for foliage, bit 1, less the bits its technique clears.
  */
  lemma ReplacementKeyBits(a: Access, b: Batch, choice: Choice, i: nat) returns (key: Word, own: Word)
    requires Selects(a, b, choice) && choice.kind != Eye
    ensures ReadWord(a, b.shader, 4) == Some(key) && ReadWord(a, choice.shader, 4) == Some(own)
    ensures Bit(own, i) <==>
            i !in ClearedBits(choice.kind) && (i == 25 || (i == 1 && choice.kind != Foliage) || (Bit(key, i) && i != 22 && i != 31))
  {
    var main, albedo;
    main, albedo, key :| Accepts(a, b, choice, main, albedo, key);
    KeysRead(a, b, choice, main, albedo, key);
    own := ReadWord(a, choice.shader, 4).value;
    EffectiveBits(choice.kind, key, i);
  }

  // --- Its stages ---

  /** A vertex and a pixel stage, and none of the other five. */
  predicate TwoStages(a: Access, shader: Address)
  {
    && (exists vertex: Address :: vertex != 0 && ReadAddress(a, shader, 0x10) == Some(vertex))
    && (exists pixel: Address :: pixel != 0 && ReadAddress(a, shader, 0x50) == Some(pixel))
    && forall offset :: offset in {0x20, 0x30, 0x40, 0x60, 0x70} ==> ReadAddress(a, shader, offset) == Some(0)
  }

  lemma VariantStage(a: Access, technique: Address, original: Address, i: nat, stage: nat)
    requires Searchable(a, technique, original) && i < VARIANTS && Matches(a, technique, original, i) && stage < STAGES
    ensures var p := ReadAddress(a, Record(a, technique, i), 0x10 + 0x10 * stage);
            p.Some? && (if stage == 0 || stage == 4 then p.value != 0 else p.value == 0)
  {
    assert StagesReadable(a, technique, i);
    assert StageAt(a, technique, i, stage).Some?;
  }

  lemma VariantStages(a: Access, technique: Address, original: Address, i: nat)
    requires Searchable(a, technique, original) && i < VARIANTS && Matches(a, technique, original, i)
    ensures StagesOk(a, Record(a, technique, i))
  {
    VariantStage(a, technique, original, i, 0);
    VariantStage(a, technique, original, i, 1);
    VariantStage(a, technique, original, i, 2);
    VariantStage(a, technique, original, i, 3);
    VariantStage(a, technique, original, i, 4);
    VariantStage(a, technique, original, i, 5);
    VariantStage(a, technique, original, i, 6);
  }

  /** Every replacement, an eye variant included, has exactly a vertex and a pixel stage. */
  lemma ReplacementStages(a: Access, b: Batch, choice: Choice)
    requires Selects(a, b, choice)
    ensures TwoStages(a, choice.shader)
  {
    var main, albedo, key :| Accepts(a, b, choice, main, albedo, key);
    if choice.kind == Eye {
      var i :| 0 <= i < VARIANTS && OnlyMatch(a, albedo, b.shader, i) && choice.shader == Record(a, albedo, i);
      assert Matches(a, albedo, b.shader, i);
      VariantStages(a, albedo, b.shader, i);
    }
    assert StagesOk(a, choice.shader);
  }

  /** An eye variant is one of four inline records, carries a canonical key of its own, and is found by it. */
  lemma VariantKey(a: Access, b: Batch, choice: Choice)
    requires Selects(a, b, choice) && choice.kind == Eye
    ensures exists albedo: Address, key ::
              && ReadAddress(a, b.material, 0x9D8) == Some(albedo) && ReadWord(a, choice.shader, 4) == Some(key)
              && Bit(key, 25) && a.getShader(albedo, key) == Some(choice.shader)
  {
    var main, albedo, key :| Accepts(a, b, choice, main, albedo, key);
    var k :| 0 <= k < VARIANTS && OnlyMatch(a, albedo, b.shader, k) && choice.shader == Record(a, albedo, k);
    assert KeyOk(a, albedo, k);
    var own := KeyAt(a, albedo, k).value;
    CanonicalBit(FORCED, 0, own, 25);
    ForcedBits(25);
    ZeroBit(25);
  }

  /** Where record `i` of an inline table stands. */
  function EyeRecord(table: Address, i: nat): Address
    requires table <= MAX_ADDRESS - 672 && i < 4
  {
    table + 168 * i
  }

  function EyePointer(a: Access, table: Address, i: nat, stage: nat): Option<Address>
    requires table <= MAX_ADDRESS - 672 && i < 4
  {
    ReadAddress(a, EyeRecord(table, i), 0x10 + 0x10 * stage)
  }

  /** A key that is its own canonical form, finds its record, and is larger than the one before. */
  predicate EyeKey(a: Access, technique: Address, table: Address, i: nat)
    requires table <= MAX_ADDRESS - 672 && i < 4
  {
    var key := ReadWord(a, EyeRecord(table, i), 4);
    && key.Some? && CanonicalTechniqueKey(0x200_0000, 0, key.value) == key.value
    && a.getShader(technique, key.value) == Some(EyeRecord(table, i))
    && (i > 0 ==> var before := ReadWord(a, EyeRecord(table, i - 1), 4); before.Some? && before.value < key.value)
  }

  predicate EyeReadable(a: Access, table: Address, i: nat)
    requires table <= MAX_ADDRESS - 672 && i < 4
  {
    forall stage: nat :: stage < 7 ==> EyePointer(a, table, i, stage).Some?
  }

  predicate EyeHeader(a: Access, technique: Address, table: Address)
  {
    && ReadAddress(a, technique, 0x238) == Some(table) && 0 < table <= MAX_ADDRESS - 672
    && ReadWord(a, technique, 0x240) == Some(4) && ReadWord(a, technique, 4) == Some(0x200_0000) && ReadWord(a, technique, 8) == Some(0)
  }

  /** The inline table of an eye technique: four readable records, 168 bytes apart, with their keys. */
  predicate EyeTable(a: Access, technique: Address, table: Address)
  {
    EyeHeader(a, technique, table) && forall i: nat :: i < 4 ==> EyeKey(a, technique, table, i) && EyeReadable(a, table, i)
  }

  /** A shader in stages 0 and 4, nothing in the others. */
  predicate PointerFits(p: Option<Address>, stage: nat)
  {
    p.Some? && (if stage == 0 || stage == 4 then p.value != 0 else p.value == 0)
  }

  /** Record `i` has the right stages and the validator takes it for the original. */
  predicate EyeMatch(a: Access, table: Address, original: Address, i: nat)
    requires table <= MAX_ADDRESS - 672 && i < 4 && a.validateEyeCandidate.Some?
  {
    (forall stage: nat :: stage < 7 ==> PointerFits(EyePointer(a, table, i, stage), stage)) &&
    a.validateEyeCandidate.value(original, EyeRecord(table, i))
  }

  lemma EyeKeyIs(a: Access, technique: Address, table: Address, i: nat)
    requires EyeHeader(a, technique, table) && i < 4
    ensures HeaderOk(a, technique) && (KeyOk(a, technique, i) <==> EyeKey(a, technique, table, i))
  {
  }

  lemma EyeReadableIs(a: Access, technique: Address, table: Address, i: nat)
    requires EyeHeader(a, technique, table) && i < 4
    ensures HeaderOk(a, technique) && (StagesReadable(a, technique, i) <==> EyeReadable(a, table, i))
  {
    forall stage: nat | stage < 7 ensures StageAt(a, technique, i, stage) == EyePointer(a, table, i, stage) {}
  }

  lemma EyeTableIs(a: Access, technique: Address, table: Address)
    requires EyeHeader(a, technique, table)
    ensures TableOk(a, technique) <==> EyeTable(a, technique, table)
  {
    forall i: nat | i < 4 ensures KeyOk(a, technique, i) <==> EyeKey(a, technique, table, i) { EyeKeyIs(a, technique, table, i); }
    forall i: nat | i < 4 ensures StagesReadable(a, technique, i) <==> EyeReadable(a, table, i) { EyeReadableIs(a, technique, table, i); }
  }

  lemma EyeMatchIs(a: Access, technique: Address, table: Address, original: Address, i: nat)
    requires EyeTable(a, technique, table) && a.validateEyeCandidate.Some? && i < 4
    ensures HeaderOk(a, technique) && StagesReadable(a, technique, i)
    ensures Matches(a, technique, original, i) <==> EyeMatch(a, table, original, i)
  {
    EyeReadableIs(a, technique, table, i);
    forall stage: nat | stage < 7 ensures StageAt(a, technique, i, stage) == EyePointer(a, table, i, stage) {}
  }

  /** The table is as it should be, and of its records `i` alone matches. */
  predicate EyeFinds(a: Access, technique: Address, original: Address, table: Address, i: nat)
  {
    && a.validateEyeCandidate.Some? && original != 0 && i < 4 && EyeTable(a, technique, table)
    && forall k: nat :: k < 4 ==> (EyeMatch(a, table, original, k) <==> k == i)
  }

  lemma EyeFound(a: Access, technique: Address, original: Address, table: Address, i: nat)
    requires EyeFinds(a, technique, original, table, i)
    ensures EyeVariant(a, technique, original) == Some(EyeRecord(table, i))
  {
    EyeTableIs(a, technique, table);
    forall k: nat | k < 4 ensures Matches(a, technique, original, k) <==> k == i { EyeMatchIs(a, technique, table, original, k); }
    EyeVariantOnce(a, technique, original, i);
  }

  lemma EyeFoundOnly(a: Access, technique: Address, original: Address, selected: Address) returns (table: Address, i: nat)
    requires EyeVariant(a, technique, original) == Some(selected)
    ensures EyeFinds(a, technique, original, table, i) && selected == EyeRecord(table, i)
  {
    table := ReadAddress(a, technique, 0x238).value;
    EyeTableIs(a, technique, table);
    i :| 0 <= i < VARIANTS && OnlyMatch(a, technique, original, i) && selected == Record(a, technique, i);
    forall k: nat | k < 4 ensures EyeMatch(a, table, original, k) <==> k == i { EyeMatchIs(a, technique, table, original, k); }
  }

  /** The search of an eye technique finds a record exactly when the table is as it should be and that record alone matches. */
  lemma EyeVariantIff(a: Access, technique: Address, original: Address, selected: Address)
    ensures EyeVariant(a, technique, original) == Some(selected) <==>
            exists table: Address, i: nat :: EyeFinds(a, technique, original, table, i) && selected == EyeRecord(table, i)
  {
    if EyeVariant(a, technique, original) == Some(selected) {
      var table, i := EyeFoundOnly(a, technique, original, selected);
    }
    forall table: Address, i: nat | EyeFinds(a, technique, original, table, i)
      ensures EyeVariant(a, technique, original) == Some(EyeRecord(table, i)) { EyeFound(a, technique, original, table, i); }
  }

  // --- Its material ---

  /** The three words of the main technique and of the albedo technique of a family. */
  function FamilyWords(kind: Admission): seq<Word>
  {
    match kind
    case Standard => [33554432, 0, 1024, 33554434, 0, 128]
    case Character => [33554432, 0, 128, 33554432, 64, 16]
    case Cloth => [33554432, 1, 64, 33554434, 1, 8]
    case Foliage => [33554432, 4194332, 16, 33554432, 60, 4]
    case Hair => [33554432, 14, 32, 33554432, 15, 4]
    case Eye => [33554432, 0, 16, 33554432, 0, 4]
  }

  predicate HasWords(a: Access, technique: Address, forced: Word, cleared: Word, count: Word)
  {
    ReadWord(a, technique, 4) == Some(forced) && ReadWord(a, technique, 8) == Some(cleared) && ReadWord(a, technique, 0x240) == Some(count)
  }

  lemma FamilyContract(kind: Admission)
    ensures var w := FamilyWords(kind); |w| == 6 && ContractOf(kind) == Contract(Technique(w[0], w[1], w[2]), Technique(w[3], w[4], w[5]))
  {
  }

  lemma WordsRead(a: Access, technique: Address, forced: Word, cleared: Word, count: Word)
    requires TechniqueWords(a, technique) == Some(Technique(forced, cleared, count))
    ensures HasWords(a, technique, forced, cleared, count)
  {
  }

  lemma EligibleReads(a: Access, b: Batch, main: Address, albedo: Address, key: Word, kind: Admission)
    requires Eligible(a, b, main, albedo, key, kind)
    ensures ReadAddress(a, b.material, 0x9A0) == Some(main) && ReadAddress(a, b.material, 0x9D8) == Some(albedo)
    ensures ReadWord(a, b.shader, 4) == Some(key) && a.getShader(main, key) == Some(b.shader)
    ensures TechniqueWords(a, main) == Some(ContractOf(kind).main) && TechniqueWords(a, albedo) == Some(ContractOf(kind).albedo)
  {
  }

  /** The techniques of a selected batch's material carry the words of its family, and its own shader is that of its key. */
  lemma MaterialContract(a: Access, b: Batch, choice: Choice) returns (main: Address, albedo: Address, key: Word)
    requires Selects(a, b, choice)
    ensures ReadAddress(a, b.material, 0x9A0) == Some(main) && ReadAddress(a, b.material, 0x9D8) == Some(albedo)
    ensures ReadWord(a, b.shader, 4) == Some(key) && a.getShader(main, key) == Some(b.shader)
    ensures var w := FamilyWords(choice.kind);
            |w| == 6 && HasWords(a, main, w[0], w[1], w[2]) && HasWords(a, albedo, w[3], w[4], w[5])
  {
    main, albedo, key :| Accepts(a, b, choice, main, albedo, key);
    EligibleReads(a, b, main, albedo, key, choice.kind);
    FamilyContract(choice.kind);
    var w := FamilyWords(choice.kind);
    WordsRead(a, main, w[0], w[1], w[2]);
    WordsRead(a, albedo, w[3], w[4], w[5]);
  }

  /** What the batch and its material point to. */
  predicate Reads(a: Access, b: Batch, main: Address, albedo: Address, key: Word)
  {
    && b.shader != 0 && b.mesh != 0 && b.material != 0 && b.tessellated == 0
    && ReadAddress(a, b.material, 0x9A0) == Some(main) && ReadAddress(a, b.material, 0x9D8) == Some(albedo)
    && ReadWord(a, b.shader, 4) == Some(key) && a.getShader(main, key) == Some(b.shader)
  }

  /** The material's name is one of the family's, and both techniques carry its words. */
  ghost predicate OfFamily(a: Access, main: Address, albedo: Address, kind: Admission)
  {
    && (var name := ReadAddress(a, main, 0x100);
        name.Some? && name.value != 0 && FamilyAt(a, name.value, 48).Some? && Classify(FamilyAt(a, name.value, 48).value) == Some(kind))
    && var w := FamilyWords(kind);
       |w| == 6 && HasWords(a, main, w[0], w[1], w[2]) && HasWords(a, albedo, w[3], w[4], w[5])
  }

  /** The shader found under the key asked for, with the effective key and two stages. */
  predicate Found(a: Access, albedo: Address, key: Word, kind: Admission, shader: Address)
  {
    && a.getShader(albedo, RequestedAlbedoKey(key, kind == Foliage)) == Some(shader) && shader != 0
    && ReadWord(a, shader, 4).Some? && ReadWord(a, shader, 4).value == EffectiveKey(kind, key) && TwoStages(a, shader)
  }

  ghost predicate Replaces(a: Access, b: Batch, choice: Choice, main: Address, albedo: Address, key: Word)
  {
    && Reads(a, b, main, albedo, key) && OfFamily(a, main, albedo, choice.kind)
    && if choice.kind == Eye then EyeVariant(a, albedo, b.shader) == Some(choice.shader) else Found(a, albedo, key, choice.kind, choice.shader)
  }

  lemma WordsAre(a: Access, technique: Address, forced: Word, cleared: Word, count: Word)
    ensures HasWords(a, technique, forced, cleared, count) <==> TechniqueWords(a, technique) == Some(Technique(forced, cleared, count))
  {
  }

  lemma OfFamilyIs(a: Access, main: Address, albedo: Address, kind: Admission)
    ensures OfFamily(a, main, albedo, kind) <==>
            && (var family := AlbedoSelection.FamilyName(a, main); family.Some? && Classify(family.value) == Some(kind))
            && TechniqueWords(a, main) == Some(ContractOf(kind).main) && TechniqueWords(a, albedo) == Some(ContractOf(kind).albedo)
  {
    FamilyContract(kind);
    var w := FamilyWords(kind);
    WordsAre(a, main, w[0], w[1], w[2]);
    WordsAre(a, albedo, w[3], w[4], w[5]);
  }

  lemma StagesAre(a: Access, shader: Address)
    ensures StagesOk(a, shader) <==> TwoStages(a, shader)
  {
  }

  lemma FoundIs(a: Access, albedo: Address, key: Word, kind: Admission, shader: Address)
    requires TechniqueWords(a, albedo) == Some(ContractOf(kind).albedo)
    ensures Found(a, albedo, key, kind, shader) <==>
            && Replacement(a, albedo, key, kind) == Some(shader) && shader != 0
            && ReplacementKeyOk(a, albedo, key, kind, shader) && StagesOk(a, shader)
  {
    StagesAre(a, shader);
  }

  lemma AcceptsIs(a: Access, b: Batch, choice: Choice, main: Address, albedo: Address, key: Word)
    ensures Accepts(a, b, choice, main, albedo, key) <==> Replaces(a, b, choice, main, albedo, key)
  {
    OfFamilyIs(a, main, albedo, choice.kind);
    if TechniqueWords(a, albedo) == Some(ContractOf(choice.kind).albedo) { FoundIs(a, albedo, key, choice.kind, choice.shader); }
  }

  /** A replacement is selected exactly when everything the contract asks for can be read from the engine's memory. */
  lemma SelectsIff(a: Access, b: Batch, choice: Choice)
    ensures Selects(a, b, choice) <==> exists main: Address, albedo: Address, key: Word :: Replaces(a, b, choice, main, albedo, key)
  {
    forall main: Address, albedo: Address, key: Word
      ensures Accepts(a, b, choice, main, albedo, key) <==> Replaces(a, b, choice, main, albedo, key) { AcceptsIs(a, b, choice, main, albedo, key); }
  }

  function BareName(kind: Admission): string
  {
    match kind
    case Standard => "standardmaterial"
    case Character => "character"
    case Cloth => "cloth"
    case Foliage => "foliage"
    case Hair => "hair"
    case Eye => "eye"
  }

  /** The names of a family: bare and with two extensions, and no other. */
  lemma FamilyNames(name: string, kind: Admission)
    ensures Classify(name) == Some(kind) <==>
            name == BareName(kind) || name == BareName(kind) + ".rfx" || name == BareName(kind) + ".obj"
  {
    assert Stem(kind) == BareName(kind);
    if Spelled(name, kind) {
      StemDecides(name, kind, Classify(name).value);
    }
  }

  /** The first letter, and for the two that share it the second, tells the family. */
  lemma StemDecides(name: string, kind: Admission, other: Admission)
    requires Spelled(name, kind) && Spelled(name, other)
    ensures kind == other
  {
    assert |name| > 1 && name[0] == Stem(kind)[0] == Stem(other)[0] && name[1] == Stem(kind)[1] == Stem(other)[1];
  }

  // --- Why a batch is not replaced ---

  /** The checks in the order in which they are made. */
  const ORDER := [
    InvalidInstance, MissingCorePointers, Tessellated, MaterialTechniqueUnreadable, ShaderKeyUnreadable, MaterialNameUnreadable,
    AlbedoTechniqueUnreadable, UnsupportedMaterialFamily, TechniqueContractMismatch, OriginalShaderMismatch,
    EyeVariantNotUnique, AlbedoShaderLookupFailed, AlbedoShaderKeyMismatch, StageContractMismatch, ShaderValidatorRejected]

  lemma OrderedReasons(i: nat)
    requires i < |ORDER|
    ensures |ORDER| == 15 && Rank(ORDER[i]) == i
  {
  }

  /** What a diagnosis says of the batch itself, read from the engine's memory. */
  lemma ReasonFacts(a: Access, b: Batch)
    ensures var r := DiagnosisOf(a, b);
            && (r == InvalidInstance <==> b.instanceCount <= 0 || b.instanceByteOffset < 0)
            && (r == MissingCorePointers ==> b.shader == 0 || b.mesh == 0 || b.material == 0)
            && (Rank(r) > 1 ==> b.shader != 0 && b.mesh != 0 && b.material != 0)
            && (r == Tessellated ==> b.tessellated != 0) && (Rank(r) > 2 ==> b.tessellated == 0)
            && (r == MaterialTechniqueUnreadable ==> ReadAddress(a, b.material, 0x9A0).None? || ReadAddress(a, b.material, 0x9A0).value == 0)
            && (r == ShaderKeyUnreadable ==> ReadWord(a, b.shader, 4).None?)
            && (r == AlbedoTechniqueUnreadable ==> ReadAddress(a, b.material, 0x9D8).None? || ReadAddress(a, b.material, 0x9D8).value == 0)
            && (Rank(r) > 6 ==> ReadAddress(a, b.material, 0x9A0).Some? && ReadWord(a, b.shader, 4).Some? && ReadAddress(a, b.material, 0x9D8).Some?)
  {
  }
}
