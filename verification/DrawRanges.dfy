/**
  The view of one draw callback on the published replay
  (src/rr_albedo_prepare.h:387-425), and how views on disjoint ranges add up.
*/
module DrawRanges {
  import opened ShaderBytes
  import opened AlbedoAccess
  import opened MaterialFamily
  import opened AlbedoPrepare

  const FAMILIES := 7

  /** A half-open range of source batches. */
  datatype Range = Range(begin: nat, end: nat)

  predicate Within(r: Range, x: nat) { r.begin <= x < r.end }

  datatype DrawRange = DrawRange(range: Range, coverage: Coverage, familyCounts: seq<nat>, offset: nat, count: nat)

  const NO_RANGE := Range(0, 0)

  function NoDraw(): DrawRange { DrawRange(NO_RANGE, NO_COVERAGE, Zeros(FAMILIES), 0, 0) }

  /** A range that is not empty and lies in the prepared one; a negative end means its end. */
  predicate Asked(sourceFirst: nat, sourceEnd: nat, first: int, endExclusive: int)
  {
    sourceFirst <= first < sourceEnd && (endExclusive >= 0 ==> first < endExclusive <= sourceEnd)
  }

  /** The range asked for, when it lies in the prepared one; a negative end means its end. */
  function DrawBounds(sourceFirst: nat, sourceEnd: nat, first: int, endExclusive: int): (r: Option<Range>)
    ensures r.Some? <==> Asked(sourceFirst, sourceEnd, first, endExclusive)
    ensures r.Some? ==> r.value == Range(first, if endExclusive < 0 then sourceEnd else endExclusive)
  {
    var end := if endExclusive < 0 then sourceEnd else endExclusive;
    if first < 0 || sourceFirst >= sourceEnd || first < sourceFirst || first >= end || end > sourceEnd then None
    else Some(Range(first, end))
  }

  /** How many of the first `n` elements satisfy `p`. */
  ghost function CountIf(s: seq<nat>, n: nat, p: nat -> bool): (c: nat)
    requires n <= |s|
    ensures c <= n
  {
    if n == 0 then 0 else CountIf(s, n - 1, p) + if p(s[n - 1]) then 1 else 0
  }

  ghost function RangeCount(indices: seq<nat>, r: Range): (c: nat)
    ensures c <= |indices|
  {
    CountIf(indices, |indices|, (x: nat) => Within(r, x))
  }

  lemma {:induction false} CountWindow(indices: seq<nat>, n: nat, r: Range, lo: nat, hi: nat)
    requires lo <= hi <= |indices| && n <= |indices|
    requires forall k :: 0 <= k < |indices| ==> (lo <= k < hi <==> Within(r, indices[k]))
    ensures CountIf(indices, n, (x: nat) => Within(r, x)) == if n <= lo then 0 else if n <= hi then n - lo else hi - lo
  {
    if n > 0 { CountWindow(indices, n - 1, r, lo, hi); }
  }

  lemma {:induction false} SpreadOut(indices: seq<nat>, i: nat, j: nat)
    requires Increasing(indices) && i <= j < |indices|
    ensures indices[j] - indices[i] >= j - i
  {
    if i < j { SpreadOut(indices, i, j - 1); }
  }

  /** The first position from `from` on whose element is not less than `value`. */
  method LowerBound(s: seq<nat>, from: nat, value: nat) returns (p: nat)
    requires Increasing(s) && from <= |s|
    ensures from <= p <= |s|
    ensures forall k :: from <= k < p ==> s[k] < value
    ensures forall k :: p <= k < |s| ==> s[k] >= value
  {
    p := from;
    var length := |s| - from;
    while length > 0
      invariant from <= p && 0 <= length && p + length <= |s|
      invariant forall k :: from <= k < p ==> s[k] < value
      invariant forall k :: p + length <= k < |s| ==> s[k] >= value
    {
      var half := length / 2;
      if s[p + half] < value {
        p, length := p + half + 1, length - half - 1;
      } else {
        length := half;
      }
    }
  }

  /** `first` to `first + count` is the window of the elements inside the range. */
  predicate Window(indices: seq<nat>, r: Range, offset: nat, count: nat)
  {
    offset + count <= |indices|
    && forall k :: 0 <= k < |indices| ==> (offset <= k < offset + count <==> Within(r, indices[k]))
  }

  function FamilyIndex(kind: Admission): (i: nat)
    ensures 0 < i < FAMILIES
  {
    match kind
    case Standard => 1
    case Character => 2
    case Cloth => 3
    case Foliage => 4
    case Hair => 5
    case Eye => 6
  }

  function FamilyCount(kinds: seq<Admission>, from: nat, to: nat, family: nat): nat
    requires from <= to <= |kinds|
  {
    if from == to then 0 else FamilyCount(kinds, from, to - 1, family) + if FamilyIndex(kinds[to - 1]) == family then 1 else 0
  }

  /** The counter of each family; the first of the seven stays unused. */
  lemma FamilyIndices()
    ensures FamilyIndex(Standard) == 1 && FamilyIndex(Character) == 2 && FamilyIndex(Cloth) == 3
    ensures FamilyIndex(Foliage) == 4 && FamilyIndex(Hair) == 5 && FamilyIndex(Eye) == 6
  {
  }

  /** Every batch shown is counted in exactly one family. */
  lemma {:induction false} FamiliesAddUp(kinds: seq<Admission>, from: nat, to: nat)
    requires from <= to <= |kinds|
    ensures FamilyCount(kinds, from, to, 0) == 0
    ensures FamilyCount(kinds, from, to, 1) + FamilyCount(kinds, from, to, 2) + FamilyCount(kinds, from, to, 3) +
            FamilyCount(kinds, from, to, 4) + FamilyCount(kinds, from, to, 5) + FamilyCount(kinds, from, to, 6) == to - from
  {
    if from < to { FamiliesAddUp(kinds, from, to - 1); }
  }

  method CountFamilies(kinds: seq<Admission>, from: nat, to: nat) returns (counts: seq<nat>)
    requires from <= to <= |kinds|
    ensures |counts| == FAMILIES && forall f :: 0 <= f < FAMILIES ==> counts[f] == FamilyCount(kinds, from, to, f)
  {
    counts := Zeros(FAMILIES);
    var j := from;
    while j < to
      invariant from <= j <= to && |counts| == FAMILIES
      invariant forall f :: 0 <= f < FAMILIES ==> counts[f] == FamilyCount(kinds, from, j, f)
    {
      var k := FamilyIndex(kinds[j]);
      counts := counts[k := counts[k] + 1];
      j := j + 1;
    }
  }

  /** Which part of the replay the draw callback for a range is to see. */
  method PrepareDrawRange(full: PreparedReplay, first: int, endExclusive: int) returns (ok: bool, out: DrawRange)
    requires Increasing(full.sourceIndices)
    ensures ok <==> Drawable(full.batches, full.sourceIndices, full.familyKinds, full.sourceFirst, full.sourceEnd, first, endExclusive)
    ensures ok ==> full.sourceFirst <= first && out.range.begin == first < out.range.end <= full.sourceEnd
    ensures ok ==> out.range.end == if endExclusive < 0 then full.sourceEnd else endExclusive
    ensures ok ==> Window(full.sourceIndices, out.range, out.offset, out.count) && out.count == RangeCount(full.sourceIndices, out.range)
    ensures ok ==> var n := out.range.end - out.range.begin;
                   out.count <= n && out.coverage == Coverage(n, out.count, n - out.count, n == out.count)
    ensures ok ==> |out.familyCounts| == FAMILIES && forall f :: 0 <= f < FAMILIES ==>
                     out.familyCounts[f] == FamilyCount(full.familyKinds, out.offset, out.offset + out.count, f)
  {
    out := NoDraw();
    if |full.batches| != |full.sourceIndices| || |full.batches| != |full.familyKinds| { return false, out; }
    var bounds := DrawBounds(full.sourceFirst, full.sourceEnd, first, endExclusive);
    if bounds.None? { return false, out; }
    var r := bounds.value;
    var lo := LowerBound(full.sourceIndices, 0, r.begin);
    var hi := LowerBound(full.sourceIndices, lo, r.end);
    var count := hi - lo;
    CountWindow(full.sourceIndices, |full.sourceIndices|, r, lo, hi);
    if count > 0 { SpreadOut(full.sourceIndices, lo, hi - 1); }
    var n := r.end - r.begin;
    out := out.(range := r, coverage := Coverage(n, count, n - count, n == count));
    if count == 0 { return false, out; }
    var families := CountFamilies(full.familyKinds, lo, hi);
    return true, out.(familyCounts := families, offset := lo, count := count);
  }

  /** The arrays are parallel, the range is valid and some accepted batch lies in it. */
  ghost predicate Drawable(
    batches: seq<Batch>, indices: seq<nat>, kinds: seq<Admission>, sourceFirst: nat, sourceEnd: nat, first: int, endExclusive: int)
  {
    && |batches| == |indices| == |kinds| && Asked(sourceFirst, sourceEnd, first, endExclusive)
    && RangeCount(indices, Range(first, if endExclusive < 0 then sourceEnd else endExclusive)) > 0
  }

  // --- Several ranges ---

  ghost predicate Apart(r: Range, q: Range) { forall x :: !(Within(r, x) && Within(q, x)) }

  ghost predicate Disjoint(rs: seq<Range>)
  {
    forall i, j :: 0 <= i < j < |rs| ==> Apart(rs[i], rs[j])
  }

  predicate CoveredBy(rs: seq<Range>, n: nat, x: nat)
    requires n <= |rs|
  {
    exists j :: 0 <= j < n && Within(rs[j], x)
  }

  ghost function SumOver(indices: seq<nat>, rs: seq<Range>, n: nat): nat
    requires n <= |rs|
  {
    if n == 0 then 0 else SumOver(indices, rs, n - 1) + RangeCount(indices, rs[n - 1])
  }

  /** How many of the first `n` ranges hold `x`. */
  function Hits(rs: seq<Range>, n: nat, x: nat): nat
    requires n <= |rs|
  {
    if n == 0 then 0 else Hits(rs, n - 1, x) + if Within(rs[n - 1], x) then 1 else 0
  }

  /** The hits of the first `k` indices, taken together. */
  function SumOfHits(indices: seq<nat>, k: nat, rs: seq<Range>, n: nat): nat
    requires k <= |indices| && n <= |rs|
  {
    if k == 0 then 0 else SumOfHits(indices, k - 1, rs, n) + Hits(rs, n, indices[k - 1])
  }

  lemma {:induction false} NoRanges(indices: seq<nat>, k: nat, rs: seq<Range>)
    requires k <= |indices|
    ensures SumOfHits(indices, k, rs, 0) == 0
  {
    if k > 0 { NoRanges(indices, k - 1, rs); }
  }

  lemma {:induction false} OneMoreRange(indices: seq<nat>, k: nat, rs: seq<Range>, n: nat)
    requires k <= |indices| && 0 < n <= |rs|
    ensures SumOfHits(indices, k, rs, n) ==
            SumOfHits(indices, k, rs, n - 1) + CountIf(indices, k, (x: nat) => Within(rs[n - 1], x))
  {
    if k > 0 { OneMoreRange(indices, k - 1, rs, n); }
  }

  /** Counting per range or per index comes to the same. */
  lemma {:induction false} SumIsHits(indices: seq<nat>, rs: seq<Range>, n: nat)
    requires n <= |rs|
    ensures SumOver(indices, rs, n) == SumOfHits(indices, |indices|, rs, n)
  {
    if n == 0 {
      NoRanges(indices, |indices|, rs);
    } else {
      SumIsHits(indices, rs, n - 1);
      OneMoreRange(indices, |indices|, rs, n);
    }
  }

  lemma {:induction false} HitIsCovered(rs: seq<Range>, n: nat, x: nat)
    requires n <= |rs|
    ensures Hits(rs, n, x) > 0 <==> CoveredBy(rs, n, x)
  {
    if n > 0 { HitIsCovered(rs, n - 1, x); }
  }

  predicate Covered(indices: seq<nat>, rs: seq<Range>)
  {
    forall k :: 0 <= k < |indices| ==> CoveredBy(rs, |rs|, indices[k])
  }

  /** No index is in two of the ranges, as can be seen from the ranges and the index array alone. */
  predicate NoneTwice(indices: seq<nat>, rs: seq<Range>)
  {
    forall k :: 0 <= k < |indices| ==> Hits(rs, |rs|, indices[k]) <= 1
  }

  lemma {:induction false} OncePerIndex(indices: seq<nat>, k: nat, rs: seq<Range>)
    requires k <= |indices| && NoneTwice(indices, rs)
    ensures SumOfHits(indices, k, rs, |rs|) <= k
    ensures SumOfHits(indices, k, rs, |rs|) == k <==> forall i :: 0 <= i < k ==> Hits(rs, |rs|, indices[i]) == 1
  {
    if k > 0 {
      OncePerIndex(indices, k - 1, rs);
      assert Hits(rs, |rs|, indices[k - 1]) <= 1;
    }
  }

  lemma {:induction false} AllHit(indices: seq<nat>, k: nat, rs: seq<Range>)
    requires k <= |indices| && forall i :: 0 <= i < |indices| ==> Hits(rs, |rs|, indices[i]) > 0
    ensures SumOfHits(indices, k, rs, |rs|) >= k
    ensures SumOfHits(indices, k, rs, |rs|) == k ==> forall i :: 0 <= i < k ==> Hits(rs, |rs|, indices[i]) == 1
  {
    if k > 0 {
      AllHit(indices, k - 1, rs);
      assert Hits(rs, |rs|, indices[k - 1]) > 0;
    }
  }

  /** When no index is in two ranges, the counts sum to all indices exactly when every index is covered. */
  lemma SumIsTotal(indices: seq<nat>, rs: seq<Range>)
    requires NoneTwice(indices, rs)
    ensures SumOver(indices, rs, |rs|) <= |indices|
    ensures SumOver(indices, rs, |rs|) == |indices| <==> Covered(indices, rs)
  {
    SumIsHits(indices, rs, |rs|);
    OncePerIndex(indices, |indices|, rs);
    forall k | 0 <= k < |indices| ensures Hits(rs, |rs|, indices[k]) == 1 <==> CoveredBy(rs, |rs|, indices[k]) {
      HitIsCovered(rs, |rs|, indices[k]);
    }
  }

  /** Counts that sum to all indices mean that every index is covered exactly when no index is in two ranges. */
  lemma TotalMeansCovered(indices: seq<nat>, rs: seq<Range>)
    requires SumOver(indices, rs, |rs|) == |indices|
    ensures Covered(indices, rs) <==> NoneTwice(indices, rs)
  {
    if NoneTwice(indices, rs) {
      SumIsTotal(indices, rs);
    } else if Covered(indices, rs) {
      SumIsHits(indices, rs, |rs|);
      forall k | 0 <= k < |indices| ensures Hits(rs, |rs|, indices[k]) > 0 {
        HitIsCovered(rs, |rs|, indices[k]);
      }
      AllHit(indices, |indices|, rs);
    }
  }

  lemma {:induction false} DisjointHitsOnce(rs: seq<Range>, n: nat, x: nat)
    requires n <= |rs| && Disjoint(rs)
    ensures Hits(rs, n, x) <= 1
  {
    if n > 0 {
      DisjointHitsOnce(rs, n - 1, x);
      if Within(rs[n - 1], x) {
        HitIsCovered(rs, n - 1, x);
        assert forall j :: 0 <= j < n - 1 ==> Apart(rs[j], rs[n - 1]);
      }
    }
  }

  /** Disjoint ranges hold no index twice. */
  lemma DisjointNoneTwice(indices: seq<nat>, rs: seq<Range>)
    requires Disjoint(rs)
    ensures NoneTwice(indices, rs)
  {
    forall k | 0 <= k < |indices| ensures Hits(rs, |rs|, indices[k]) <= 1 {
      DisjointHitsOnce(rs, |rs|, indices[k]);
    }
  }

  /** An index covered by disjoint ranges is in exactly one of them. */
  lemma InOneRange(rs: seq<Range>, x: nat) returns (j: nat)
    requires Disjoint(rs) && CoveredBy(rs, |rs|, x)
    ensures j < |rs| && forall i :: 0 <= i < |rs| ==> (Within(rs[i], x) <==> i == j)
  {
    j :| 0 <= j < |rs| && Within(rs[j], x);
    forall i | 0 <= i < |rs| && i != j ensures !Within(rs[i], x) {
      assert Apart(rs[i], rs[j]) || Apart(rs[j], rs[i]);
    }
  }
}
