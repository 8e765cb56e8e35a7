/**
  The material family named by a native string (src/rr_albedo_prepare.h:150-209).
*/
module MaterialFamily {
  import opened ShaderBytes
  import opened KeyBits
  import opened AlbedoAccess

  datatype Admission = Standard | Character | Cloth | Foliage | Hair | Eye

  datatype Technique = Technique(forced: Key, cleared: Key, count: Word)

  datatype Contract = Contract(main: Technique, albedo: Technique)

  const NAME_BYTES := 256
  const FAMILY_BYTES := 48

  predicate Separator(c: Byte) { c == 0x2F || c == 0x5C }

  /** Lower case, with anything but letters, digits, `.`, `_` and `-` replaced by `_`. */
  function Clean(c: Byte): char
  {
    var d: int := if 0x41 <= c <= 0x5A then c + 0x20 else c;
    if 0x61 <= d <= 0x7A || 0x30 <= d <= 0x39 || d == 0x2E || d == 0x5F || d == 0x2D then d as char else '_'
  }

  /** `begin` is just past the last separator, or 0. */
  predicate BaseAt(s: seq<Byte>, begin: nat)
  {
    && begin <= |s|
    && (begin > 0 ==> Separator(s[begin - 1]))
    && forall i :: begin <= i < |s| ==> !Separator(s[i])
  }

  /** The cleaned characters from `begin`, cut to fit. */
  predicate Cleaned(s: seq<Byte>, begin: nat, capacity: nat, family: string)
    requires begin <= |s|
  {
    && |family| == (if |s| - begin < capacity then |s| - begin else capacity - 1)
    && forall i :: 0 <= i < |family| ==> family[i] == Clean(s[begin + i])
  }

  /** `s` is the zero-terminated string at `p`, short enough for the name buffer. */
  ghost predicate Holds(a: Access, p: Address, s: seq<Byte>)
  {
    && |s| < NAME_BYTES - 1
    && (forall i :: 0 <= i < |s| ==> s[i] != 0 && ReadByte(a, p, i) == Some(s[i]))
    && ReadByte(a, p, |s|) == Some(0)
  }

  lemma NotLonger(a: Access, p: Address, s: seq<Byte>, t: seq<Byte>)
    requires Holds(a, p, s)
    requires forall i :: 0 <= i < |t| ==> t[i] != 0 && ReadByte(a, p, i) == Some(t[i])
    ensures |t| <= |s|
  {
  }

  lemma HoldsOnce(a: Access, p: Address, s: seq<Byte>, t: seq<Byte>)
    requires Holds(a, p, s) && Holds(a, p, t)
    ensures s == t
  {
    NotLonger(a, p, s, t);
    NotLonger(a, p, t, s);
    forall i | 0 <= i < |s| ensures s[i] == t[i] {
      assert ReadByte(a, p, i) == Some(s[i]) && ReadByte(a, p, i) == Some(t[i]);
    }
  }

  ghost predicate NamedBy(a: Access, p: Address, capacity: nat, family: string, s: seq<Byte>, begin: nat)
  {
    Holds(a, p, s) && BaseAt(s, begin) && capacity > 0 && Cleaned(s, begin, capacity, family) && |family| > 0
  }

  /** The family named by the string at `p`, if it is readable and names one. */
  ghost predicate Names(a: Access, p: Address, capacity: nat, family: string)
  {
    exists s, begin :: NamedBy(a, p, capacity, family, s, begin)
  }

  ghost function FamilyAt(a: Access, p: Address, capacity: nat): (r: Option<string>)
    ensures r.Some? ==> Names(a, p, capacity, r.value)
    ensures r.None? ==> forall family :: !Names(a, p, capacity, family)
  {
    if exists family :: Names(a, p, capacity, family) then
      var family :| Names(a, p, capacity, family);
      Some(family)
    else None
  }

  lemma NotAfter(s: seq<Byte>, i: nat, j: nat)
    requires BaseAt(s, i) && BaseAt(s, j)
    ensures i <= j
  {
    if 0 < i {
      var c := s[i - 1];
    }
  }

  lemma CleanedOnce(s: seq<Byte>, begin: nat, capacity: nat, family: string, other: string)
    requires begin <= |s| && Cleaned(s, begin, capacity, family) && Cleaned(s, begin, capacity, other)
    ensures family == other
  {
  }

  lemma NamesOnce(a: Access, p: Address, capacity: nat, family: string, other: string)
    requires Names(a, p, capacity, family) && Names(a, p, capacity, other)
    ensures family == other
  {
    var s, i :| NamedBy(a, p, capacity, family, s, i);
    var t, j :| NamedBy(a, p, capacity, other, t, j);
    HoldsOnce(a, p, s, t);
    NotAfter(s, i, j);
    NotAfter(s, j, i);
    CleanedOnce(s, i, capacity, family, other);
  }

  /** The characters up to the terminator; not `ok` when a byte is unreadable or the buffer is too short. */
  method ReadName(a: Access, p: Address) returns (name: seq<Byte>, begin: nat, ok: bool)
    ensures ok ==> Holds(a, p, name) && BaseAt(name, begin)
    ensures !ok ==> forall s :: !Holds(a, p, s)
  {
    name, begin := [], 0;
    var c := ReadByte(a, p, 0);
    while |name| < NAME_BYTES - 1 && c.Some? && c.value != 0
      invariant |name| <= NAME_BYTES - 1 && BaseAt(name, begin)
      invariant c == ReadByte(a, p, |name|)
      invariant forall i :: 0 <= i < |name| ==> name[i] != 0 && ReadByte(a, p, i) == Some(name[i])
      decreases NAME_BYTES - |name|
    {
      name := name + [c.value];
      if Separator(c.value) { begin := |name|; }
      c := ReadByte(a, p, |name|);
    }
    ok := |name| < NAME_BYTES - 1 && c.Some?;
    if !ok {
      forall s ensures !Holds(a, p, s) {
        if Holds(a, p, s) { NotLonger(a, p, s, name); }
      }
    }
  }

  method ReadMaterialFamily(a: Access, p: Address, capacity: nat) returns (r: Option<string>)
    ensures r == FamilyAt(a, p, capacity)
  {
    if capacity == 0 || p == 0 { return None; }
    var name, begin, ok := ReadName(a, p);
    if !ok { return None; }
    var family: string, n := [], 0;
    while begin + n < |name| && n + 1 < capacity
      invariant 0 <= n == |family| <= |name| - begin && n < capacity
      invariant forall i :: 0 <= i < n ==> family[i] == Clean(name[begin + i])
    {
      family := family + [Clean(name[begin + n])];
      n := n + 1;
    }
    if n == 0 {
      Nameless(a, p, capacity, name, begin);
      return None;
    }
    assert NamedBy(a, p, capacity, family, name, begin);
    assert Names(a, p, capacity, family);
    NamesOnce(a, p, capacity, family, FamilyAt(a, p, capacity).value);
    return Some(family);
  }

  lemma Nameless(a: Access, p: Address, capacity: nat, name: seq<Byte>, begin: nat)
    requires Holds(a, p, name) && BaseAt(name, begin) && (begin == |name| || capacity <= 1)
    ensures FamilyAt(a, p, capacity) == None
  {
    var r := FamilyAt(a, p, capacity);
    if r.Some? {
      var s, i :| NamedBy(a, p, capacity, r.value, s, i);
      HoldsOnce(a, p, s, name);
      NotAfter(s, i, begin);
      NotAfter(s, begin, i);
    }
  }

  function Stem(kind: Admission): string
  {
    match kind
    case Standard => "standardmaterial"
    case Character => "character"
    case Cloth => "cloth"
    case Foliage => "foliage"
    case Hair => "hair"
    case Eye => "eye"
  }

  /** The family's name, bare or with one of its two extensions. */
  predicate Spelled(family: string, kind: Admission)
  {
    family == Stem(kind) || family == Stem(kind) + ".rfx" || family == Stem(kind) + ".obj"
  }

  function Classify(family: string): (r: Option<Admission>)
    ensures r.Some? ==> Spelled(family, r.value)
    ensures r.None? ==> forall kind :: !Spelled(family, kind)
  {
    if Spelled(family, Standard) then Some(Standard)
    else if Spelled(family, Character) then Some(Character)
    else if Spelled(family, Cloth) then Some(Cloth)
    else if Spelled(family, Foliage) then Some(Foliage)
    else if Spelled(family, Hair) then Some(Hair)
    else if Spelled(family, Eye) then Some(Eye)
    else None
  }

  function ContractOf(kind: Admission): Contract
  {
    match kind
    case Standard => Contract(Technique(FORCED, 0, 1024), Technique(FORCED_ALBEDO, 0, 128))
    case Character => Contract(Technique(FORCED, 0, 128), Technique(FORCED, 64, 16))
    case Cloth => Contract(Technique(FORCED, 1, 64), Technique(FORCED_ALBEDO, 1, 8))
    case Foliage => Contract(Technique(FORCED, 0x0040_001C, 16), Technique(FORCED, 0x3C, 4))
    case Hair => Contract(Technique(FORCED, 0x0E, 32), Technique(FORCED, 0x0F, 4))
    case Eye => Contract(Technique(FORCED, 0, 16), Technique(FORCED, 0, 4))
  }

  // --- The older test for standard materials ---

  function Lowered(s: seq<Byte>): (t: string)
    ensures |t| == |s| && forall i :: 0 <= i < |s| ==> t[i] == Lower(s[i]) as char
  {
    seq(|s|, i requires 0 <= i < |s| => Lower(s[i]) as char)
  }

  predicate StandardName(name: string)
  {
    name == "standardmaterial" || name == "standardmaterial.rfx" || name == "standardmaterial.obj"
  }

  ghost predicate NamedStandard(a: Access, p: Address, s: seq<Byte>, begin: nat)
  {
    Holds(a, p, s) && BaseAt(s, begin) && StandardName(Lowered(s[begin..]))
  }

  /** The base name, letter case aside, is one of three. */
  method IsStandardMaterialName(a: Access, p: Address) returns (r: bool)
    ensures r <==> exists s, begin :: NamedStandard(a, p, s, begin)
  {
    if p == 0 { return false; }
    var name, begin, ok := ReadName(a, p);
    if !ok { return false; }
    r := StandardName(Lowered(name[begin..]));
    if r { assert NamedStandard(a, p, name, begin); }
    forall s, i | NamedStandard(a, p, s, i) ensures s == name && i == begin {
      HoldsOnce(a, p, s, name);
      NotAfter(s, i, begin);
      NotAfter(s, begin, i);
    }
  }

  /** A character of the three names: lower-case letters and the dot. */
  predicate Lettered(name: string)
  {
    forall i :: 0 <= i < |name| ==> 'a' <= name[i] <= 'z' || name[i] == '.'
  }

  lemma NamesLettered(name: string)
    requires StandardName(name)
    ensures Lettered(name) && 16 <= |name| <= 20
  {
  }

  /** Cleaning a base name of such characters lowers it, and gives nothing else the same name. */
  lemma CleanedIsLowered(s: seq<Byte>, begin: nat, family: string, name: string)
    requires begin <= |s| && Cleaned(s, begin, FAMILY_BYTES, family) && Lettered(name) && |name| <= 20
    ensures family == name <==> Lowered(s[begin..]) == name
  {
    var base := s[begin..];
    forall i | 0 <= i < |base| && i < |family| && i < |name| ensures family[i] == name[i] <==> Lowered(base)[i] == name[i] {
      assert base[i] == s[begin + i];
    }
  }

  /** The older test agrees with the families: it holds exactly of the strings whose family is the standard one. */
  lemma StandardNameAgrees(a: Access, p: Address)
    ensures (exists s, begin :: NamedStandard(a, p, s, begin)) <==>
            FamilyAt(a, p, FAMILY_BYTES).Some? && Classify(FamilyAt(a, p, FAMILY_BYTES).value) == Some(Standard)
  {
    if s: seq<Byte>, begin: nat :| NamedStandard(a, p, s, begin) {
      var base := Lowered(s[begin..]);
      NamesLettered(base);
      assert Cleaned(s, begin, FAMILY_BYTES, base) by {
        forall i | 0 <= i < |base| ensures base[i] == Clean(s[begin + i]) { assert s[begin..][i] == s[begin + i]; }
      }
      assert NamedBy(a, p, FAMILY_BYTES, base, s, begin);
      assert Names(a, p, FAMILY_BYTES, base);
      NamesOnce(a, p, FAMILY_BYTES, base, FamilyAt(a, p, FAMILY_BYTES).value);
      StandardSpelled(base);
    }
    var r := FamilyAt(a, p, FAMILY_BYTES);
    if r.Some? && Classify(r.value) == Some(Standard) {
      var s, begin :| NamedBy(a, p, FAMILY_BYTES, r.value, s, begin);
      StandardSpelled(r.value);
      NamesLettered(r.value);
      CleanedIsLowered(s, begin, r.value, r.value);
      assert NamedStandard(a, p, s, begin);
    }
  }

  lemma StandardSpelled(name: string)
    ensures StandardName(name) <==> Classify(name) == Some(Standard)
  {
    assert Stem(Standard) + ".rfx" == "standardmaterial.rfx" && Stem(Standard) + ".obj" == "standardmaterial.obj";
  }
}
