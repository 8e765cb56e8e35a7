/**
  Technique keys as sets of bits (src/rr_albedo_prepare.h:155-160, 191-193).
*/
module KeyBits {

  /** A technique or shader key, or a mask of its bits. */
  type Key = nat

  predicate Bit(x: Key, i: nat)
  {
    if i == 0 then x % 2 == 1 else Bit(x / 2, i - 1)
  }

  function Or(x: Key, y: Key): Key
  {
    if x == 0 then y else (if x % 2 == 1 || y % 2 == 1 then 1 else 0) + 2 * Or(x / 2, y / 2)
  }

  /** `x` without the bits of `y`. */
  function Without(x: Key, y: Key): Key
  {
    if x == 0 then 0 else (if x % 2 == 1 && y % 2 == 0 then 1 else 0) + 2 * Without(x / 2, y / 2)
  }

  lemma {:induction false} ZeroBit(i: nat)
    ensures !Bit(0, i)
  {
    if i > 0 { ZeroBit(i - 1); }
  }

  lemma {:induction false} OrBit(x: Key, y: Key, i: nat)
    ensures Bit(Or(x, y), i) <==> Bit(x, i) || Bit(y, i)
  {
    if x == 0 {
      ZeroBit(i);
    } else if i > 0 {
      assert Or(x, y) / 2 == Or(x / 2, y / 2);
      OrBit(x / 2, y / 2, i - 1);
    }
  }

  lemma {:induction false} WithoutBit(x: Key, y: Key, i: nat)
    ensures Bit(Without(x, y), i) <==> Bit(x, i) && !Bit(y, i)
  {
    if x == 0 {
      ZeroBit(i);
    } else if i > 0 {
      assert Without(x, y) / 2 == Without(x / 2, y / 2);
      WithoutBit(x / 2, y / 2, i - 1);
    }
  }

  lemma {:induction false} BitsDetermine(x: Key, y: Key)
    requires forall i: nat :: Bit(x, i) <==> Bit(y, i)
    ensures x == y
  {
    if x != 0 || y != 0 {
      assert Bit(x, 0) <==> Bit(y, 0);
      forall i: nat ensures Bit(x / 2, i) <==> Bit(y / 2, i) {
        var j := i + 1;
        assert Bit(x, j) <==> Bit(y, j);
      }
      BitsDetermine(x / 2, y / 2);
    }
  }

  /** The key a technique really looks up: its own bits forced on, then its cleared bits off. */
  function CanonicalTechniqueKey(techniqueOr: Key, techniqueClear: Key, requested: Key): Key
  {
    Without(Or(techniqueOr, requested), techniqueClear)
  }

  lemma CanonicalBit(techniqueOr: Key, techniqueClear: Key, requested: Key, i: nat)
    ensures Bit(CanonicalTechniqueKey(techniqueOr, techniqueClear, requested), i) <==>
            (Bit(techniqueOr, i) || Bit(requested, i)) && !Bit(techniqueClear, i)
  {
    OrBit(techniqueOr, requested, i);
    WithoutBit(Or(techniqueOr, requested), techniqueClear, i);
  }

  /** Asking for the key that a lookup used finds the same key. */
  lemma CanonicalIsStable(techniqueOr: Key, techniqueClear: Key, requested: Key)
    ensures var k := CanonicalTechniqueKey(techniqueOr, techniqueClear, requested);
            CanonicalTechniqueKey(techniqueOr, techniqueClear, k) == k
  {
    var k := CanonicalTechniqueKey(techniqueOr, techniqueClear, requested);
    var again := CanonicalTechniqueKey(techniqueOr, techniqueClear, k);
    forall i: nat ensures Bit(again, i) <==> Bit(k, i) {
      CanonicalBit(techniqueOr, techniqueClear, requested, i);
      CanonicalBit(techniqueOr, techniqueClear, k, i);
    }
    BitsDetermine(again, k);
  }

  const FORCED: Key := 0x0200_0000
  const FORCED_ALBEDO: Key := 0x0200_0002
  const STRIPPED: Key := 0x8040_0000

  /** The albedo key asked for; foliage keeps its own bit 1. */
  function RequestedAlbedoKey(key: Key, foliage: bool): Key
  {
    Or(Without(key, STRIPPED), if foliage then FORCED else FORCED_ALBEDO)
  }

  /** Bits 22 and 31 are stripped, 25 is forced, and so is 1 unless the family is foliage; the rest are kept. */
  lemma RequestedBit(key: Key, foliage: bool, i: nat)
    ensures Bit(RequestedAlbedoKey(key, foliage), i) <==>
            (Bit(key, i) && i != 22 && i != 31) || i == 25 || (i == 1 && !foliage)
  {
    WithoutBit(key, STRIPPED, i);
    OrBit(Without(key, STRIPPED), if foliage then FORCED else FORCED_ALBEDO, i);
    StrippedBits(i);
    ForcedBits(i);
  }

  lemma {:induction false} PowerBit(n: nat, i: nat)
    ensures Bit(Power(n), i) <==> i == n
  {
    if n == 0 && i > 0 {
      ZeroBit(i - 1);
    } else if i > 0 {
      PowerBit(n - 1, i - 1);
    }
  }

  function Power(n: nat): (p: Key)
    ensures p > 0
  {
    if n == 0 then 1 else 2 * Power(n - 1)
  }

  lemma {:induction false} PowerSum(m: nat, n: nat)
    ensures Power(m + n) == Power(m) * Power(n)
  {
    if m > 0 { PowerSum(m - 1, n); }
  }

  lemma PowersUsed()
    ensures Power(1) == 2 && Power(22) == 0x40_0000 && Power(25) == 0x200_0000 && Power(31) == 0x8000_0000
  {
    assert Power(3) == 2 * Power(2) == 8;
    PowerSum(3, 3);
    PowerSum(6, 3);
    PowerSum(9, 9);
    PowerSum(18, 3);
    PowerSum(21, 1);
    PowerSum(22, 3);
    PowerSum(25, 6);
  }

  lemma OrDoubles(x: Key, y: Key)
    ensures Or(2 * x, 2 * y) == 2 * Or(x, y)
  {
    if x > 0 {
      assert 2 * x / 2 == x && 2 * y / 2 == y && 2 * x % 2 == 0 && 2 * y % 2 == 0;
    }
  }

  lemma OrOne(x: Key)
    ensures Or(1, 2 * x) == 1 + 2 * x
  {
    assert Or(1 / 2, 2 * x / 2) == x;
  }

  lemma {:induction false} OrPowers(m: nat, n: nat)
    requires m < n
    ensures Or(Power(m), Power(n)) == Power(m) + Power(n)
  {
    if m > 0 {
      OrPowers(m - 1, n - 1);
      OrDoubles(Power(m - 1), Power(n - 1));
    } else {
      OrOne(Power(n - 1));
    }
  }

  lemma StrippedBits(i: nat)
    ensures Bit(STRIPPED, i) <==> i == 22 || i == 31
  {
    PowersUsed();
    OrPowers(22, 31);
    PowerBit(22, i);
    PowerBit(31, i);
    OrBit(Power(22), Power(31), i);
  }

  lemma ForcedBits(i: nat)
    ensures (Bit(FORCED, i) <==> i == 25) && (Bit(FORCED_ALBEDO, i) <==> i == 25 || i == 1)
  {
    PowersUsed();
    OrPowers(1, 25);
    PowerBit(25, i);
    PowerBit(1, i);
    OrBit(Power(1), Power(25), i);
  }
}
