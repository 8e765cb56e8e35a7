/**
  The selection of the batches to replay, and the audit of the others
  (src/rr_albedo_prepare.h:52-124, 289-296, 336-383).
*/
module AlbedoPrepare {
  import opened ShaderBytes
  import opened KeyBits
  import opened AlbedoAccess
  import opened MaterialFamily
  import opened AlbedoSelection

  const NO_MANAGER := Manager(0, 0, 0, 0)
  const REASONS := 15
  const EXAMPLES := 64

  datatype Coverage = Coverage(sourceBatches: nat, replayBatches: nat, rejectedBatches: nat, complete: bool)

  const NO_COVERAGE := Coverage(0, 0, 0, false)

  datatype Example = Example(sourceIndex: nat, reason: Reason)

  datatype Audit = Audit(counts: seq<nat>, examples: seq<Example>, total: nat)

  function Zeros(n: nat): (r: seq<nat>)
    ensures |r| == n && forall i :: 0 <= i < n ==> r[i] == 0
  {
    seq(n, _ => 0)
  }

  function EmptyAudit(): Audit { Audit(Zeros(REASONS), [], 0) }

  /** The counter of a reason. */
  function Slot(r: Reason): (i: nat)
    ensures i < REASONS
  {
    match r
    case InvalidInstance => 0
    case MissingCorePointers => 1
    case Tessellated => 2
    case MaterialTechniqueUnreadable => 3
    case AlbedoTechniqueUnreadable => 4
    case ShaderKeyUnreadable => 5
    case MaterialNameUnreadable => 6
    case UnsupportedMaterialFamily => 7
    case TechniqueContractMismatch => 8
    case OriginalShaderMismatch => 9
    case AlbedoShaderLookupFailed => 10
    case AlbedoShaderKeyMismatch => 11
    case StageContractMismatch => 12
    case ShaderValidatorRejected => 13
    case EyeVariantNotUnique => 14
  }

  function Sum(s: seq<nat>): nat { if s == [] then 0 else s[0] + Sum(s[1..]) }

  lemma {:induction false} SumOfZeros(n: nat)
    ensures Sum(Zeros(n)) == 0
  {
    if n > 0 {
      assert Zeros(n)[1..] == Zeros(n - 1);
      SumOfZeros(n - 1);
    }
  }

  lemma {:induction false} SumCounts(s: seq<nat>, i: nat)
    requires i < |s|
    ensures Sum(s[i := s[i] + 1]) == Sum(s) + 1
  {
    if i > 0 {
      assert s[i := s[i] + 1][1..] == s[1..][i - 1 := s[1..][i - 1] + 1];
      SumCounts(s[1..], i - 1);
    } else {
      assert s[0 := s[0] + 1][1..] == s[1..];
    }
  }

  /** Every rejection was counted once, and the first of them were kept as examples. */
  predicate AuditOk(u: Audit)
  {
    && |u.counts| == REASONS && Sum(u.counts) == u.total
    && |u.examples| == if u.total < EXAMPLES then u.total else EXAMPLES
  }

  /** The half-open range of source batches asked for; a negative end means all of them. */
  function Bounds(m: Manager, maximum: nat, first: int, endExclusive: int): (r: Option<(nat, nat)>)
    ensures r.Some? ==> r.value.0 < r.value.1 <= m.count
  {
    if m.count == 0 || m.count > maximum || m.batches == 0 || m.instances == 0 || m.instanceBuffers == 0 || first < 0 then None
    else
      var end := if endExclusive < 0 then m.count else endExclusive;
      if first >= end || end > m.count then None else Some((first, end))
  }

  function SourceBatch(a: Access, m: Manager, i: nat): Option<Batch> { ReadBatch(a, m.batches, i) }

  // --- What becomes of one batch ---

  ghost function BaseChoice(a: Access, m: Manager, b: Batch): Option<Choice>
  {
    if InstanceOk(b) && b.instanceBufferIndex < m.instanceBuffers then Selection(a, b) else None
  }

  predicate ShaderValid(a: Access, b: Batch, choice: Choice)
  {
    a.validateShader.None? || a.validateShader.value(b.shader, choice.shader)
  }

  datatype Fate = Unreadable | Keep(batch: Batch, kind: Admission) | Reject(reason: Reason)

  /** What becomes of source batch `i`. */
  ghost function FateOf(a: Access, m: Manager, i: nat): Fate
  {
    match SourceBatch(a, m, i)
    case None => Unreadable
    case Some(b) =>
      match BaseChoice(a, m, b)
      case Some(choice) =>
        if ShaderValid(a, b, choice) then Keep(b.(shader := choice.shader), choice.kind) else Reject(RefusalOf(a, m, b, true))
      case None => Reject(RefusalOf(a, m, b, false))
  }

  /** The validator is blamed for a batch exactly when the selector accepted it and the validator did not. */
  lemma ValidatorBlamed(a: Access, m: Manager, i: nat, b: Batch)
    requires SourceBatch(a, m, i) == Some(b)
    ensures FateOf(a, m, i) == Reject(ShaderValidatorRejected) <==>
            BaseChoice(a, m, b).Some? && !ShaderValid(a, b, BaseChoice(a, m, b).value)
  {
    DiagnosisAgrees(a, b);
  }

  type Fates = nat -> Fate

  /** `fate` is what `FateOf` says. */
  ghost predicate Tells(fate: Fates, a: Access, m: Manager)
  {
    forall i: nat {:trigger FateOf(a, m, i)} :: fate(i) == FateOf(a, m, i)
  }

  /** How many source batches of a range are rejected for a reason. */
  ghost function RejectCount(fate: Fates, begin: nat, end: nat, r: Reason): nat
    requires begin <= end
    decreases end
  {
    if begin == end then 0 else RejectCount(fate, begin, end - 1, r) + if fate(end - 1) == Reject(r) then 1 else 0
  }

  // --- The prepared replay ---

  predicate Increasing(s: seq<nat>)
  {
    forall j, k :: 0 <= j < k < |s| ==> s[j] < s[k]
  }

  /** The three parallel arrays hold the kept batches of the range, in order, and nothing else. */
  ghost predicate Prepared(fate: Fates, begin: nat, end: nat, batches: seq<Batch>, indices: seq<nat>, kinds: seq<Admission>)
  {
    && |batches| == |indices| == |kinds| && Increasing(indices)
    && (forall k :: 0 <= k < |indices| ==> begin <= indices[k] < end)
    && (forall k :: 0 <= k < |indices| ==> fate(indices[k]) == Keep(batches[k], kinds[k]))
    && (forall i: nat :: begin <= i < end && fate(i).Keep? ==> i in indices)
  }

  lemma PreparedGrows(
    fate: Fates, begin: nat, i: nat, batches: seq<Batch>, indices: seq<nat>, kinds: seq<Admission>, b: Batch, kind: Admission)
    requires begin <= i && Prepared(fate, begin, i, batches, indices, kinds) && fate(i) == Keep(b, kind)
    ensures Prepared(fate, begin, i + 1, batches + [b], indices + [i], kinds + [kind])
  {
    var grown := indices + [i];
    forall n: nat | begin <= n < i + 1 && fate(n).Keep? ensures n in grown {
      if n < i { assert n in indices; } else { assert grown[|indices|] == n; }
    }
  }

  lemma PreparedSkips(fate: Fates, begin: nat, i: nat, batches: seq<Batch>, indices: seq<nat>, kinds: seq<Admission>)
    requires begin <= i && Prepared(fate, begin, i, batches, indices, kinds) && !fate(i).Keep?
    ensures Prepared(fate, begin, i + 1, batches, indices, kinds)
  {
    forall n: nat | begin <= n < i + 1 && fate(n).Keep? ensures n in indices {
      assert n < i;
    }
  }

  /** Every counter is the number of batches rejected so far for its reason. */
  ghost predicate CountsAre(u: Audit, fate: Fates, begin: nat, end: nat)
    requires begin <= end
  {
    |u.counts| == REASONS && forall r :: u.counts[Slot(r)] == RejectCount(fate, begin, end, r)
  }

  /** Batches and rejections add up, and tell whether all or any of the range was kept. */
  ghost predicate Tallied(kept: nat, rejected: nat, fate: Fates, begin: nat, end: nat)
    requires begin <= end
  {
    && kept + rejected == end - begin
    && (rejected == 0 <==> forall i: nat :: begin <= i < end ==> fate(i).Keep?)
    && (kept > 0 <==> exists i: nat :: begin <= i < end && fate(i).Keep?)
  }

  /** The reason recorded when a batch is not kept. */
  ghost function RefusalOf(a: Access, m: Manager, b: Batch, selected: bool): Reason
  {
    if selected then ShaderValidatorRejected
    else if b.instanceBufferIndex >= m.instanceBuffers then InvalidInstance
    else DiagnosisOf(a, b)
  }

  /** The audit with one more rejection. */
  function Note(u: Audit, sourceIndex: nat, r: Reason): (n: Audit)
    requires |u.counts| == REASONS
    ensures |n.counts| == REASONS
  {
    Audit(u.counts[Slot(r) := u.counts[Slot(r)] + 1],
          if |u.examples| < EXAMPLES then u.examples + [Example(sourceIndex, r)] else u.examples,
          u.total + 1)
  }

  /** The arrays and the audit while the loop runs. */
  datatype Progress = Progress(batches: seq<Batch>, indices: seq<nat>, kinds: seq<Admission>, audit: Audit)

  /** One turn of the loop. */
  function Turn(p: Progress, i: nat, fate: Fate): (q: Progress)
    requires |p.audit.counts| == REASONS
    ensures |q.audit.counts| == REASONS
  {
    match fate
    case Unreadable => p
    case Keep(batch, kind) => Progress(p.batches + [batch], p.indices + [i], p.kinds + [kind], p.audit)
    case Reject(r) => p.(audit := Note(p.audit, i, r))
  }

  ghost function After(fate: Fates, begin: nat, end: nat): (p: Progress)
    requires begin <= end
    ensures |p.audit.counts| == REASONS
    decreases end
  {
    if begin == end then Progress([], [], [], EmptyAudit())
    else Turn(After(fate, begin, end - 1), end - 1, fate(end - 1))
  }

  ghost predicate Considered(fate: Fates, begin: nat, end: nat, p: Progress)
    requires begin <= end
  {
    && Prepared(fate, begin, end, p.batches, p.indices, p.kinds)
    && AuditOk(p.audit) && CountsAre(p.audit, fate, begin, end)
    && Tallied(|p.batches|, p.audit.total, fate, begin, end)
  }

  ghost predicate AllReadable(fate: Fates, begin: nat, end: nat)
  {
    forall i: nat :: begin <= i < end ==> fate(i) != Unreadable
  }

  /** The loop comes to `stop`: the end of the range, or the first batch that cannot be read. */
  ghost predicate Stops(fate: Fates, begin: nat, end: nat, stop: nat)
  {
    begin <= stop <= end && AllReadable(fate, begin, stop) && (stop < end ==> fate(stop) == Unreadable)
  }

  lemma {:induction false} AfterPrepared(fate: Fates, begin: nat, end: nat)
    requires begin <= end && AllReadable(fate, begin, end)
    ensures var p := After(fate, begin, end); Prepared(fate, begin, end, p.batches, p.indices, p.kinds)
  {
    if begin < end {
      AfterPrepared(fate, begin, end - 1);
      var p, f := After(fate, begin, end - 1), fate(end - 1);
      if f.Keep? {
        PreparedGrows(fate, begin, end - 1, p.batches, p.indices, p.kinds, f.batch, f.kind);
      } else {
        PreparedSkips(fate, begin, end - 1, p.batches, p.indices, p.kinds);
      }
    }
  }

  lemma {:induction false} AfterAudited(fate: Fates, begin: nat, end: nat)
    requires begin <= end
    ensures AuditOk(After(fate, begin, end).audit)
  {
    if begin == end {
      SumOfZeros(REASONS);
    } else {
      AfterAudited(fate, begin, end - 1);
      var u, f := After(fate, begin, end - 1).audit, fate(end - 1);
      if f.Reject? { SumCounts(u.counts, Slot(f.reason)); }
    }
  }

  lemma {:induction false} AfterCounted(fate: Fates, begin: nat, end: nat, r: Reason)
    requires begin <= end
    ensures After(fate, begin, end).audit.counts[Slot(r)] == RejectCount(fate, begin, end, r)
  {
    if begin < end {
      AfterCounted(fate, begin, end - 1, r);
      var f := fate(end - 1);
      if f.Reject? { SlotsDiffer(r, f.reason); }
    }
  }

  lemma SlotsDiffer(r: Reason, q: Reason)
    ensures Slot(r) == Slot(q) <==> r == q
  {
  }

  lemma {:induction false} AfterTallied(fate: Fates, begin: nat, end: nat)
    requires begin <= end && AllReadable(fate, begin, end)
    ensures var p := After(fate, begin, end); Tallied(|p.batches|, p.audit.total, fate, begin, end)
  {
    if begin < end {
      AfterTallied(fate, begin, end - 1);
      var p := After(fate, begin, end - 1);
      TallyGrows(|p.batches|, p.audit.total, fate, begin, end - 1);
    }
  }

  lemma AfterConsiders(fate: Fates, begin: nat, end: nat)
    requires begin <= end && AllReadable(fate, begin, end)
    ensures Considered(fate, begin, end, After(fate, begin, end))
  {
    AfterPrepared(fate, begin, end);
    AfterAudited(fate, begin, end);
    AfterTallied(fate, begin, end);
    forall r ensures After(fate, begin, end).audit.counts[Slot(r)] == RejectCount(fate, begin, end, r) {
      AfterCounted(fate, begin, end, r);
    }
  }

  lemma TallyGrows(kept: nat, rejected: nat, fate: Fates, begin: nat, i: nat)
    requires begin <= i && Tallied(kept, rejected, fate, begin, i) && fate(i) != Unreadable
    ensures Tallied(if fate(i).Keep? then kept + 1 else kept, if fate(i).Keep? then rejected else rejected + 1, fate, begin, i + 1)
  {
  }

  method Decide(a: Access, m: Manager, b: Batch) returns (r: Option<Choice>)
    ensures r == BaseChoice(a, m, b)
  {
    if !InstanceOk(b) || b.instanceBufferIndex >= m.instanceBuffers { return None; }
    r := SelectStandardAlbedo(a, b);
  }

  class PreparedReplay {
    var manager: Manager
    var batches: seq<Batch>
    var sourceIndices: seq<nat>
    var familyKinds: seq<Admission>
    var sourceFirst: nat
    var sourceEnd: nat
    var coverage: Coverage
    var audit: Audit

    constructor ()
      ensures batches == [] && sourceIndices == [] && familyKinds == []
    {
      manager, batches, sourceIndices, familyKinds := NO_MANAGER, [], [], [];
      sourceFirst, sourceEnd, coverage, audit := 0, 0, NO_COVERAGE, EmptyAudit();
    }

    /** `forced` is the reason when the caller knows it. */
    method RecordReject(a: Access, b: Batch, sourceIndex: nat, forced: Option<Reason>)
      requires |audit.counts| == REASONS
      modifies this`audit
      ensures audit == Note(old(audit), sourceIndex, if forced.Some? then forced.value else DiagnosisOf(a, b))
    {
      var reason: Reason;
      if forced.Some? { reason := forced.value; } else { reason := DiagnoseReject(a, b); }
      Record(sourceIndex, reason);
    }

    method Record(sourceIndex: nat, reason: Reason)
      requires |audit.counts| == REASONS
      modifies this`audit
      ensures audit == Note(old(audit), sourceIndex, reason)
    {
      var i := Slot(reason);
      audit := audit.(counts := audit.counts[i := audit.counts[i] + 1], total := audit.total + 1);
      if |audit.examples| < EXAMPLES {
        audit := audit.(examples := audit.examples + [Example(sourceIndex, reason)]);
      }
    }

    method Keep(b: Batch, i: nat, kind: Admission)
      modifies this`batches, this`sourceIndices, this`familyKinds
      ensures batches == old(batches) + [b] && sourceIndices == old(sourceIndices) + [i]
      ensures familyKinds == old(familyKinds) + [kind]
    {
      batches, sourceIndices, familyKinds := batches + [b], sourceIndices + [i], familyKinds + [kind];
    }

    method Refuse(a: Access, m: Manager, b: Batch, i: nat, selected: bool)
      requires |audit.counts| == REASONS
      modifies this`coverage, this`audit
      ensures audit == Note(old(audit), i, RefusalOf(a, m, b, selected))
      ensures coverage == old(coverage).(rejectedBatches := old(coverage).rejectedBatches + 1)
    {
      coverage := coverage.(rejectedBatches := coverage.rejectedBatches + 1);
      var forced := if selected then Some(ShaderValidatorRejected)
                    else if b.instanceBufferIndex >= m.instanceBuffers then Some(InvalidInstance) else None;
      RecordReject(a, b, i, forced);
    }

    function Current(): Progress
      reads this
    {
      Progress(batches, sourceIndices, familyKinds, audit)
    }

    /** One turn of the loop: source batch `i` is kept, or its rejection recorded. */
    method Consider(a: Access, m: Manager, i: nat, ghost fate: Fates) returns (readable: bool)
      requires |audit.counts| == REASONS && Tells(fate, a, m)
      modifies this`batches, this`sourceIndices, this`familyKinds, this`coverage, this`audit
      ensures readable <==> fate(i) != Unreadable
      ensures Current() == Turn(old(Current()), i, fate(i))
      ensures coverage == if fate(i).Reject? then old(coverage).(rejectedBatches := old(coverage).rejectedBatches + 1)
                          else old(coverage)
    {
      ghost var told := FateOf(a, m, i);
      var source := SourceBatch(a, m, i);
      if source.None? { return false; }
      var b := source.value;
      var choice := Decide(a, m, b);
      readable := true;
      if choice.None? || !ShaderValid(a, b, choice.value) {
        Refuse(a, m, b, i, choice.Some?);
      } else {
        Keep(b.(shader := choice.value.shader), i, choice.value.kind);
      }
    }

    /** The loop over the range; it ends early at a batch that cannot be read. */
    method ConsiderAll(a: Access, m: Manager, begin: nat, end: nat, ghost fate: Fates)
      returns (readable: bool, ghost stop: nat)
      requires begin < end && Tells(fate, a, m) && Current() == After(fate, begin, begin)
      requires coverage == Coverage(end - begin, 0, 0, false)
      modifies this`batches, this`sourceIndices, this`familyKinds, this`coverage, this`audit
      ensures Stops(fate, begin, end, stop) && (readable <==> stop == end)
      ensures Current() == After(fate, begin, stop) && coverage == Coverage(end - begin, 0, audit.total, false)
    {
      var i := begin;
      while i < end
        invariant begin <= i <= end && Current() == After(fate, begin, i)
        invariant coverage == Coverage(end - begin, 0, audit.total, false)
        invariant AllReadable(fate, begin, i)
      {
        stop := i;
        readable := Consider(a, m, i, fate);
        if !readable { return; }
        i := i + 1;
      }
      readable, stop := true, i;
    }

    method Clear()
      modifies this`batches, this`sourceIndices, this`familyKinds
      ensures batches == [] && sourceIndices == [] && familyKinds == []
    {
      batches, sourceIndices, familyKinds := [], [], [];
    }

    method Prepare(
      a: Access, nativeManager: Address, allowPartial: bool, maximumBatches: nat, first: int, endExclusive: int)
      returns (ok: bool)
      modifies this
      ensures ok <==> Preparable(a, nativeManager, allowPartial, maximumBatches, first, endExclusive)
      ensures ok ==> Some(manager) == a.managerAt(nativeManager) && IsPrepared(FatesOf(a, manager))
      ensures ok ==> sourceFirst == first && sourceEnd == if endExclusive < 0 then manager.count else endExclusive
      ensures ok ==> sourceFirst < sourceEnd <= manager.count <= maximumBatches
      ensures ok ==> batches != [] && (!allowPartial ==> |batches| == sourceEnd - sourceFirst)
      ensures !ok ==> batches == [] && sourceIndices == [] && familyKinds == []
      ensures if nativeManager == 0 || a.managerAt(nativeManager).None? then manager == NO_MANAGER && Untouched()
              else a.managerAt(nativeManager) == Some(manager) && Leaves(a, maximumBatches, first, endExclusive)
    {
      RangeBounds(a, nativeManager, maximumBatches, first, endExclusive);
      coverage, audit, sourceFirst, sourceEnd, manager := NO_COVERAGE, EmptyAudit(), 0, 0, NO_MANAGER;
      Clear();
      var read := if nativeManager == 0 then None else a.managerAt(nativeManager);
      if read.None? { return false; }
      var m := read.value;
      manager := m;
      var bounds := Bounds(m, maximumBatches, first, endExclusive);
      if bounds.None? { return false; }
      sourceFirst, sourceEnd := bounds.value.0, bounds.value.1;
      coverage := coverage.(sourceBatches := sourceEnd - sourceFirst);
      ghost var fate := FatesOf(a, m);
      ghost var stop;
      ok, stop := PrepareRange(a, m, allowPartial, fate);
    }

    method PrepareRange(a: Access, m: Manager, allowPartial: bool, ghost fate: Fates) returns (ok: bool, ghost stop: nat)
      requires sourceFirst < sourceEnd && Tells(fate, a, m) && Current() == After(fate, sourceFirst, sourceFirst)
      requires coverage == Coverage(sourceEnd - sourceFirst, 0, 0, false)
      modifies this`batches, this`sourceIndices, this`familyKinds, this`coverage, this`audit
      ensures ok <==> RangeUsable(fate, sourceFirst, sourceEnd, allowPartial)
      ensures ok ==> IsPrepared(fate)
      ensures !ok ==> batches == [] && sourceIndices == [] && familyKinds == []
      ensures ExaminedTo(fate, stop)
    {
      var readable;
      readable, stop := ConsiderAll(a, m, sourceFirst, sourceEnd, fate);
      if !readable { Clear(); ok := false; return; }
      AfterConsiders(fate, sourceFirst, sourceEnd);
      coverage := coverage.(replayBatches := |batches|, complete := coverage.rejectedBatches == 0);
      ok := (coverage.complete || allowPartial) && |batches| > 0;
      if !coverage.complete && !allowPartial { Clear(); }
    }

    /** The coverage and the audit after the source batches up to `stop` were looked at, whatever the result. */
    ghost predicate ExaminedTo(fate: Fates, stop: nat)
      reads this
    {
      && Stops(fate, sourceFirst, sourceEnd, stop)
      && var p, done := After(fate, sourceFirst, stop), stop == sourceEnd;
         && audit == p.audit
         && coverage == Coverage(sourceEnd - sourceFirst, if done then |p.batches| else 0, p.audit.total, done && p.audit.total == 0)
    }

    ghost predicate Untouched()
      reads this
    {
      sourceFirst == 0 && sourceEnd == 0 && coverage == NO_COVERAGE && audit == EmptyAudit()
    }

    /** What a call leaves of its range once the manager was read. */
    ghost predicate Leaves(a: Access, maximumBatches: nat, first: int, endExclusive: int)
      reads this
    {
      if !RangeValid(manager, maximumBatches, first, endExclusive) then Untouched()
      else
        && sourceFirst == first && sourceEnd == (if endExclusive < 0 then manager.count else endExclusive)
        && exists stop :: ExaminedTo(FatesOf(a, manager), stop)
    }

    /** The state a successful call leaves. */
    ghost predicate IsPrepared(fate: Fates)
      reads this
    {
      && sourceFirst < sourceEnd && Considered(fate, sourceFirst, sourceEnd, Current())
      && coverage == Coverage(sourceEnd - sourceFirst, |batches|, audit.total, audit.total == 0)
    }
  }

  ghost function FatesOf(a: Access, m: Manager): (fate: Fates)
    ensures Tells(fate, a, m)
  {
    (i: nat) => FateOf(a, m, i)
  }

  /** When a call succeeds. */
  ghost predicate Preparable(
    a: Access, nativeManager: Address, allowPartial: bool, maximumBatches: nat, first: int, endExclusive: int)
  {
    && nativeManager != 0
    && var read := a.managerAt(nativeManager);
       && read.Some? && RangeValid(read.value, maximumBatches, first, endExclusive)
       && RangeUsable(FatesOf(a, read.value), first, if endExclusive < 0 then read.value.count else endExclusive, allowPartial)
  }

  /** The manager has batches, no more than allowed, and the range lies in them; a negative end stands for their number. */
  predicate RangeValid(m: Manager, maximumBatches: nat, first: int, endExclusive: int)
  {
    && 1 <= m.count <= maximumBatches && m.batches != 0 && m.instances != 0 && m.instanceBuffers != 0
    && 0 <= first < m.count && (endExclusive >= 0 ==> first < endExclusive <= m.count)
  }

  /** The bounds computed by the call are those of the valid range. */
  lemma RangeBounds(a: Access, nativeManager: Address, maximumBatches: nat, first: int, endExclusive: int)
    ensures forall m :: a.managerAt(nativeManager) == Some(m) ==>
              Bounds(m, maximumBatches, first, endExclusive) ==
              if RangeValid(m, maximumBatches, first, endExclusive)
              then Some((first, if endExclusive < 0 then m.count else endExclusive)) else None
  {
  }

  /** All of the range can be read, and some of it, or all of it, is kept. */
  ghost predicate RangeUsable(fate: Fates, begin: nat, end: nat, allowPartial: bool)
  {
    && AllReadable(fate, begin, end)
    && (exists i: nat :: begin <= i < end && fate(i).Keep?)
    && (allowPartial || forall i: nat :: begin <= i < end ==> fate(i).Keep?)
  }
}
