/**
  The unique-candidate search of an eye technique (src/rr_eye_variants.h:5-51).
*/
module EyeVariants {
  import opened ShaderBytes
  import opened KeyBits
  import opened AlbedoAccess

  const VARIANTS := 4
  const STAGES := 7
  const STRIDE := 0xA8

  datatype Evidence = Evidence(keys: seq<Word>, matches: seq<bool>, matchCount: nat, tableValid: bool)

  /** The four inline records fit below the top of the address space. */
  predicate HeaderOk(a: Access, technique: Address)
  {
    && (var table := ReadAddress(a, technique, 0x238);
        table.Some? && 0 < table.value <= MAX_ADDRESS - VARIANTS * STRIDE)
    && ReadWord(a, technique, 0x240) == Some(VARIANTS)
    && ReadWord(a, technique, 4) == Some(FORCED) && ReadWord(a, technique, 8) == Some(0)
  }

  function Record(a: Access, technique: Address, i: nat): Address
    requires HeaderOk(a, technique) && i < VARIANTS
  {
    ReadAddress(a, technique, 0x238).value + i * STRIDE
  }

  function KeyAt(a: Access, technique: Address, i: nat): Option<Word>
    requires HeaderOk(a, technique) && i < VARIANTS
  {
    ReadWord(a, Record(a, technique, i), 4)
  }

  function StageAt(a: Access, technique: Address, i: nat, stage: nat): Option<Address>
    requires HeaderOk(a, technique) && i < VARIANTS && stage < STAGES
  {
    ReadAddress(a, Record(a, technique, i), 0x10 + stage * 0x10)
  }

  /** Record `i` has a larger canonical key than the one before it, and looking that key up finds the record. */
  predicate KeyOk(a: Access, technique: Address, i: nat)
    requires HeaderOk(a, technique) && i < VARIANTS
  {
    var key := KeyAt(a, technique, i);
    && key.Some?
    && (i > 0 ==> KeyAt(a, technique, i - 1).Some? && KeyAt(a, technique, i - 1).value < key.value)
    && CanonicalTechniqueKey(FORCED, 0, key.value) == key.value
    && a.getShader(technique, key.value) == Some(Record(a, technique, i))
  }

  predicate StagesReadable(a: Access, technique: Address, i: nat)
    requires HeaderOk(a, technique) && i < VARIANTS
  {
    forall stage :: 0 <= stage < STAGES ==> StageAt(a, technique, i, stage).Some?
  }

  /** The whole table is as the renderer lays it out. */
  predicate TableOk(a: Access, technique: Address)
  {
    && HeaderOk(a, technique)
    && (forall i :: 0 <= i < VARIANTS ==> KeyOk(a, technique, i))
    && (forall i :: 0 <= i < VARIANTS ==> StagesReadable(a, technique, i))
  }

  /** Exactly a vertex and a pixel stage. */
  predicate StageFits(pointer: Address, stage: nat)
  {
    if stage == 0 || stage == 4 then pointer != 0 else pointer == 0
  }

  predicate Matches(a: Access, technique: Address, original: Address, i: nat)
    requires HeaderOk(a, technique) && a.validateEyeCandidate.Some? && i < VARIANTS && StagesReadable(a, technique, i)
  {
    && (forall stage :: 0 <= stage < STAGES ==> StageFits(StageAt(a, technique, i, stage).value, stage))
    && a.validateEyeCandidate.value(original, Record(a, technique, i))
  }

  predicate Searchable(a: Access, technique: Address, original: Address)
  {
    a.validateEyeCandidate.Some? && original != 0 && TableOk(a, technique)
  }

  /** `i` is the one record that matches. */
  predicate OnlyMatch(a: Access, technique: Address, original: Address, i: nat)
    requires Searchable(a, technique, original) && i < VARIANTS
  {
    forall j :: 0 <= j < VARIANTS ==> (Matches(a, technique, original, j) <==> j == i)
  }

  /** The record of the variant to use, when there is exactly one. */
  predicate IsEyeVariant(a: Access, technique: Address, original: Address, selected: Address)
  {
    && Searchable(a, technique, original)
    && exists i :: 0 <= i < VARIANTS && OnlyMatch(a, technique, original, i) && selected == Record(a, technique, i)
  }

  ghost function EyeVariant(a: Access, technique: Address, original: Address): (r: Option<Address>)
    ensures r.Some? ==> IsEyeVariant(a, technique, original, r.value)
    ensures r.None? ==> forall selected :: !IsEyeVariant(a, technique, original, selected)
  {
    if exists selected :: IsEyeVariant(a, technique, original, selected) then
      var selected :| IsEyeVariant(a, technique, original, selected);
      Some(selected)
    else None
  }

  lemma EyeVariantOnce(a: Access, technique: Address, original: Address, i: nat)
    requires Searchable(a, technique, original) && i < VARIANTS && OnlyMatch(a, technique, original, i)
    ensures EyeVariant(a, technique, original) == Some(Record(a, technique, i))
  {
    assert IsEyeVariant(a, technique, original, Record(a, technique, i));
    var selected := EyeVariant(a, technique, original).value;
    var j :| 0 <= j < VARIANTS && OnlyMatch(a, technique, original, j) && selected == Record(a, technique, j);
    assert Matches(a, technique, original, j);
  }

  /** The keys of the first records, as far as they were read. */
  predicate KeysAre(a: Access, technique: Address, keys: seq<Word>)
    requires HeaderOk(a, technique) && |keys| <= VARIANTS
  {
    forall i :: 0 <= i < |keys| ==> KeyAt(a, technique, i) == Some(keys[i])
  }

  /** The verdicts on the first records, as far as they were reached. */
  predicate MatchesAre(a: Access, technique: Address, original: Address, matches: seq<bool>)
    requires HeaderOk(a, technique) && a.validateEyeCandidate.Some? && |matches| <= VARIANTS
  {
    forall i :: 0 <= i < |matches| ==>
      StagesReadable(a, technique, i) && (matches[i] <==> Matches(a, technique, original, i))
  }

  method ReadKeys(a: Access, technique: Address) returns (keys: seq<Word>, ok: bool)
    requires HeaderOk(a, technique)
    ensures ok <==> forall i :: 0 <= i < VARIANTS ==> KeyOk(a, technique, i)
    ensures |keys| <= VARIANTS && (ok ==> |keys| == VARIANTS)
    ensures KeysAre(a, technique, keys)
  {
    keys := [];
    var i: nat := 0;
    while i < VARIANTS
      invariant i == |keys| <= VARIANTS && KeysAre(a, technique, keys)
      invariant forall k :: 0 <= k < i ==> KeyOk(a, technique, k)
    {
      var key, fits := ReadKey(a, technique, keys);
      if key.Some? { keys := keys + [key.value]; }
      if !fits { return keys, false; }
      i := i + 1;
    }
    return keys, true;
  }

  /** The next key after `keys`, and whether it fits there. */
  method ReadKey(a: Access, technique: Address, keys: seq<Word>) returns (key: Option<Word>, fits: bool)
    requires HeaderOk(a, technique) && |keys| < VARIANTS && KeysAre(a, technique, keys)
    ensures key == KeyAt(a, technique, |keys|) && (fits <==> KeyOk(a, technique, |keys|))
    ensures key.Some? ==> KeysAre(a, technique, keys + [key.value])
  {
    var i := |keys|;
    key := KeyAt(a, technique, i);
    fits := key.Some? && (i > 0 ==> keys[i - 1] < key.value) &&
            CanonicalTechniqueKey(FORCED, 0, key.value) == key.value &&
            a.getShader(technique, key.value) == Some(Record(a, technique, i));
  }

  predicate StagesAre(a: Access, technique: Address, i: nat, pointers: seq<Address>)
    requires HeaderOk(a, technique) && i < VARIANTS
  {
    |pointers| == STAGES && forall k :: 0 <= k < STAGES ==> StageAt(a, technique, i, k) == Some(pointers[k])
  }

  predicate PointersAre(a: Access, technique: Address, pointers: seq<seq<Address>>)
    requires HeaderOk(a, technique) && |pointers| <= VARIANTS
  {
    forall i :: 0 <= i < |pointers| ==> StagesAre(a, technique, i, pointers[i])
  }

  /** The stage pointers of record `i`, and whether they are those of a vertex and a pixel shader. */
  method ReadStages(a: Access, technique: Address, i: nat) returns (pointers: seq<Address>, stages: bool, ok: bool)
    requires HeaderOk(a, technique) && i < VARIANTS
    ensures ok <==> StagesReadable(a, technique, i)
    ensures ok ==> StagesAre(a, technique, i, pointers)
    ensures ok ==> (stages <==> forall k :: 0 <= k < STAGES ==> StageFits(StageAt(a, technique, i, k).value, k))
  {
    pointers, stages := [], true;
    var stage: nat := 0;
    while stage < STAGES
      invariant stage == |pointers| <= STAGES
      invariant forall k :: 0 <= k < stage ==> StageAt(a, technique, i, k) == Some(pointers[k])
      invariant stages <==> forall k :: 0 <= k < stage ==> StageFits(pointers[k], k)
    {
      var pointer := StageAt(a, technique, i, stage);
      if pointer.None? { return pointers, false, false; }
      stages := stages && StageFits(pointer.value, stage);
      pointers := pointers + [pointer.value];
      stage := stage + 1;
    }
    return pointers, stages, true;
  }

  /** The second reading, after the callbacks: with a pure reader it never differs from the first. */
  method Recheck(a: Access, technique: Address, keys: seq<Word>, pointers: seq<seq<Address>>) returns (same: bool)
    requires TableOk(a, technique) && |keys| == VARIANTS && |pointers| == VARIANTS
    requires KeysAre(a, technique, keys) && PointersAre(a, technique, pointers)
    ensures same
  {
    var i: nat := 0;
    while i < VARIANTS
      invariant i <= VARIANTS
    {
      if KeyAt(a, technique, i) != Some(keys[i]) { return false; }
      var stage: nat := 0;
      while stage < STAGES
        invariant stage <= STAGES
      {
        if StageAt(a, technique, i, stage) != Some(pointers[i][stage]) { return false; }
        stage := stage + 1;
      }
      i := i + 1;
    }
    return true;
  }

  /** The first reading of record `i`, with its verdict. */
  method MatchRecord(a: Access, technique: Address, original: Address, i: nat)
    returns (found: bool, pointers: seq<Address>, readable: bool)
    requires HeaderOk(a, technique) && a.validateEyeCandidate.Some? && i < VARIANTS
    ensures readable <==> StagesReadable(a, technique, i)
    ensures readable ==> StagesAre(a, technique, i, pointers) && (found <==> Matches(a, technique, original, i))
  {
    var stages;
    pointers, stages, readable := ReadStages(a, technique, i);
    found := readable && stages && a.validateEyeCandidate.value(original, Record(a, technique, i));
  }

  lemma OneMore(
    a: Access, technique: Address, original: Address, matches: seq<bool>, found: bool,
    pointers: seq<seq<Address>>, last: seq<Address>)
    requires HeaderOk(a, technique) && a.validateEyeCandidate.Some? && |matches| == |pointers| < VARIANTS
    requires MatchesAre(a, technique, original, matches) && PointersAre(a, technique, pointers)
    requires StagesReadable(a, technique, |matches|) && StagesAre(a, technique, |matches|, last)
    requires found <==> Matches(a, technique, original, |matches|)
    ensures MatchesAre(a, technique, original, matches + [found]) && PointersAre(a, technique, pointers + [last])
  {
  }

  /** The first reading of every record, with its verdict. */
  method MatchRecords(a: Access, technique: Address, original: Address)
    returns (matches: seq<bool>, count: nat, unique: nat, pointers: seq<seq<Address>>, ok: bool)
    requires HeaderOk(a, technique) && a.validateEyeCandidate.Some?
    ensures ok <==> forall i :: 0 <= i < VARIANTS ==> StagesReadable(a, technique, i)
    ensures |matches| <= VARIANTS && MatchesAre(a, technique, original, matches) && count == Marked(matches)
    ensures ok ==> |matches| == |pointers| == VARIANTS && Counts(matches, count, unique) && PointersAre(a, technique, pointers)
  {
    matches, count, unique, pointers := [], 0, 0, [];
    var i: nat := 0;
    while i < VARIANTS
      invariant i == |matches| == |pointers| <= VARIANTS && PointersAre(a, technique, pointers)
      invariant MatchesAre(a, technique, original, matches)
      invariant Tally(matches, count, unique)
    {
      var found, stagePointers, readable := MatchRecord(a, technique, original, i);
      if !readable { return matches, count, unique, pointers, false; }
      CountOne(matches, count, unique, found);
      OneMore(a, technique, original, matches, found, pointers, stagePointers);
      if found { count, unique := count + 1, i; }
      matches, pointers := matches + [found], pointers + [stagePointers];
      i := i + 1;
    }
    ok := true;
  }

  /** What the evidence says, however far the inspection came. */
  predicate EvidenceOk(a: Access, technique: Address, original: Address, e: Evidence)
  {
    && |e.keys| <= VARIANTS && |e.matches| <= VARIANTS && e.matchCount == Marked(e.matches)
    && (e.keys != [] || e.matches != [] ==>
          && HeaderOk(a, technique) && a.validateEyeCandidate.Some?
          && KeysAre(a, technique, e.keys) && MatchesAre(a, technique, original, e.matches))
    && (e.tableValid <==> Searchable(a, technique, original))
    && (e.tableValid ==> |e.keys| == VARIANTS && |e.matches| == VARIANTS)
  }

  method SelectEyeVariant(a: Access, technique: Address, original: Address) returns (r: Option<Address>, e: Evidence)
    ensures r == EyeVariant(a, technique, original)
    ensures EvidenceOk(a, technique, original, e)
    ensures r.Some? <==> e.tableValid && e.matchCount == 1
  {
    e := Evidence([], [], 0, false);
    if a.validateEyeCandidate.None? || original == 0 || !HeaderOk(a, technique) { return None, e; }
    var keys, keysOk := ReadKeys(a, technique);
    e := e.(keys := keys);
    if !keysOk { return None, e; }
    var matches, count, unique, pointers, ok := MatchRecords(a, technique, original);
    e := e.(matches := matches, matchCount := count);
    if !ok { return None, e; }
    var same := Recheck(a, technique, keys, pointers);
    if !same { return None, e; }
    e := e.(tableValid := true);
    VariantIsOneMatch(a, technique, original, matches, count, unique);
    if count != 1 { return None, e; }
    EyeVariantOnce(a, technique, original, unique);
    return Some(Record(a, technique, unique)), e;
  }

  function Marked(marks: seq<bool>): nat
  {
    if marks == [] then 0 else Marked(marks[..|marks| - 1]) + if marks[|marks| - 1] then 1 else 0
  }

  /** `count` is the number of marks as far as it matters: none, one (at `unique`) or more. */
  predicate Counts(marks: seq<bool>, count: nat, unique: nat)
  {
    && (count == 0 ==> forall k :: 0 <= k < |marks| ==> !marks[k])
    && (count == 1 ==> unique < |marks| && forall k :: 0 <= k < |marks| ==> (marks[k] <==> k == unique))
    && (count > 1 ==> exists j, k :: 0 <= j < k < |marks| && marks[j] && marks[k])
  }

  predicate Tally(marks: seq<bool>, count: nat, unique: nat)
  {
    Counts(marks, count, unique) && count == Marked(marks)
  }

  lemma CountOne(marks: seq<bool>, count: nat, unique: nat, found: bool)
    requires Tally(marks, count, unique)
    ensures Tally(marks + [found], if found then count + 1 else count, if found then |marks| else unique)
  {
    var grown := marks + [found];
    assert grown[..|marks|] == marks;
    if count > 1 {
      var j, k :| 0 <= j < k < |marks| && marks[j] && marks[k];
      assert grown[j] && grown[k];
    } else if count == 1 && found {
      assert grown[unique] && grown[|marks|];
    }
  }

  lemma OneMark(marks: seq<bool>, count: nat, unique: nat, i: nat)
    requires Counts(marks, count, unique) && i < |marks| && forall k :: 0 <= k < |marks| ==> (marks[k] <==> k == i)
    ensures count == 1
  {
    var marked := marks[i];
  }

  lemma VariantIsOneMatch(a: Access, technique: Address, original: Address, marks: seq<bool>, count: nat, unique: nat)
    requires Searchable(a, technique, original) && |marks| == VARIANTS && Counts(marks, count, unique)
    requires MatchesAre(a, technique, original, marks)
    ensures EyeVariant(a, technique, original).Some? ==> count == 1
  {
    var r := EyeVariant(a, technique, original);
    if r.Some? {
      var i :| 0 <= i < VARIANTS && OnlyMatch(a, technique, original, i) && r.value == Record(a, technique, i);
      OneMark(marks, count, unique, i);
    }
  }
}
