/**
  The second filter, by shader contract, over the prepared arrays: for the
  recurring replay (src/rr_diffuse_replay.h:120-135) and for the one-shot capture
  (src/rr_albedo_capture.h:182-225).  Both compact the arrays in place.
*/
module ReplayFilter {
  import opened ShaderBytes
  import opened AlbedoAccess
  import opened MaterialFamily
  import opened AlbedoPrepare

  const ADDRESSES := 0x1_0000_0000_0000_0000
  const SHADERS := 128

  /** What validating one shader pair says of its pixel shader. */
  datatype Contract = Contract(targets: nat, selected: nat)

  type Validator = (Address, Address) -> Option<Contract>

  datatype Outcome = Lost | Refused | Passed(contract: Contract)

  function OutcomeOf(a: Access, m: Manager, pair: Validator, index: nat, replacement: Address): Outcome
  {
    match a.batchAt((m.batches + index * BATCH_BYTES) % ADDRESSES)
    case None => Lost
    case Some(original) =>
      match pair(original.shader, replacement)
      case None => Refused
      case Some(contract) => Passed(contract)
  }

  function Outcomes(a: Access, m: Manager, pair: Validator, batches: seq<Batch>, indices: seq<nat>): (r: seq<Outcome>)
    requires |batches| == |indices|
    ensures |r| == |batches|
    ensures forall i :: 0 <= i < |r| ==> r[i] == OutcomeOf(a, m, pair, indices[i], batches[i].shader)
  {
    seq(|batches|, i requires 0 <= i < |batches| => OutcomeOf(a, m, pair, indices[i], batches[i].shader))
  }

  /** With pure memory the source batches that were prepared can be read again. */
  lemma PreparedStillReadable(a: Access, m: Manager, pair: Validator, index: nat, replacement: Address)
    requires SourceBatch(a, m, index).Some?
    ensures !OutcomeOf(a, m, pair, index, replacement).Lost?
  {
    assert (m.batches + index * BATCH_BYTES) % ADDRESSES == m.batches + index * BATCH_BYTES;
  }

  // --- Which elements are kept ---

  /** What a filter asks of an element by itself. */
  type Policy = Outcome -> bool

  predicate DiffuseFits(o: Outcome) { o.Passed? && 1 <= o.contract.targets <= 2 }

  predicate CaptureFits(o: Outcome) { o.Passed? && o.contract.selected < SHADERS }

  /** A filter passes only elements whose pixel shader has a target. */
  predicate Sound(fits: Policy, s: seq<Outcome>)
  {
    forall i :: 0 <= i < |s| && fits(s[i]) ==> s[i].Passed? && s[i].contract.targets > 0
  }

  /** The target count of the elements kept so far, 0 before the first. */
  function Running(s: seq<Outcome>, fits: Policy, n: nat): nat
    requires n <= |s|
    decreases n, 0
  {
    if n == 0 then 0 else if Keeps(s, fits, n - 1) then s[n - 1].contract.targets else Running(s, fits, n - 1)
  }

  predicate Keeps(s: seq<Outcome>, fits: Policy, i: nat)
    requires i < |s|
    decreases i, 1
  {
    && s[i].Passed? && fits(s[i])
    && (Running(s, fits, i) == 0 || Running(s, fits, i) == s[i].contract.targets)
  }

  /** Element `i` is the first that fits. */
  predicate First(s: seq<Outcome>, fits: Policy, i: nat)
  {
    i < |s| && fits(s[i]) && forall k :: 0 <= k < i ==> !fits(s[k])
  }

  lemma {:induction false} RunningIsFirst(s: seq<Outcome>, fits: Policy, n: nat)
    requires n <= |s| && Sound(fits, s)
    ensures Running(s, fits, n) == 0 <==> forall k :: 0 <= k < n ==> !fits(s[k])
    ensures forall i :: 0 <= i < n && First(s, fits, i) ==> Running(s, fits, n) == s[i].contract.targets
  {
    if n > 0 { RunningIsFirst(s, fits, n - 1); }
  }

  /** What fits is kept exactly when it has the target count of the first that fits. */
  lemma KeptMeans(s: seq<Outcome>, fits: Policy, i: nat)
    requires i < |s| && Sound(fits, s)
    ensures Keeps(s, fits, i) <==>
            fits(s[i]) && forall j :: 0 <= j < i && First(s, fits, j) ==> s[j].contract.targets == s[i].contract.targets
  {
    RunningIsFirst(s, fits, i);
    if fits(s[i]) && Running(s, fits, i) != 0 {
      var k :| 0 <= k < i && fits(s[k]);
      var j := FirstUpTo(s, fits, k);
    }
  }

  lemma {:induction false} FirstUpTo(s: seq<Outcome>, fits: Policy, k: nat) returns (j: nat)
    requires k < |s| && fits(s[k])
    ensures j <= k && First(s, fits, j)
  {
    if forall i :: 0 <= i < k ==> !fits(s[i]) {
      j := k;
    } else {
      var i :| 0 <= i < k && fits(s[i]);
      j := FirstUpTo(s, fits, i);
    }
  }

  /** All kept elements have one target count. */
  lemma OneTargetCount(s: seq<Outcome>, fits: Policy, i: nat, j: nat)
    requires Sound(fits, s) && i < |s| && j < |s| && Keeps(s, fits, i) && Keeps(s, fits, j)
    ensures s[i].contract.targets == s[j].contract.targets
  {
    KeptMeans(s, fits, i);
    KeptMeans(s, fits, j);
    var f := FirstUpTo(s, fits, if i < j then i else j);
    KeptMeans(s, fits, f);
  }

  /** The recurring replay can use a pixel shader with one target or two. */
  predicate DiffuseUsable(o: Outcome) { o.Passed? && o.contract.targets in {1, 2} }

  /** The capture can use any pixel shader among the first 128 of the session. */
  predicate CaptureUsable(o: Outcome) { o.Passed? && o.contract.selected < 128 }

  /** What the recurring replay keeps: what it can use, with the target count of the first that it can use. */
  lemma DiffuseKept(s: seq<Outcome>, i: nat)
    requires i < |s|
    ensures Keeps(s, DiffuseFits, i) <==>
            DiffuseUsable(s[i]) && forall j: nat :: j < i && First(s, DiffuseUsable, j) ==> s[j].contract.targets == s[i].contract.targets
  {
    assert Sound(DiffuseFits, s);
    KeptMeans(s, DiffuseFits, i);
    forall j: nat ensures First(s, DiffuseUsable, j) <==> First(s, DiffuseFits, j) {
      assert forall k :: 0 <= k < |s| ==> (DiffuseUsable(s[k]) <==> DiffuseFits(s[k]));
    }
  }

  /** What the capture keeps, when no shader is accepted without a target. */
  lemma CaptureKept(s: seq<Outcome>, i: nat)
    requires i < |s| && forall k :: 0 <= k < |s| && s[k].Passed? ==> s[k].contract.targets > 0
    ensures Keeps(s, CaptureFits, i) <==>
            CaptureUsable(s[i]) && forall j: nat :: j < i && First(s, CaptureUsable, j) ==> s[j].contract.targets == s[i].contract.targets
  {
    assert Sound(CaptureFits, s);
    KeptMeans(s, CaptureFits, i);
    forall j: nat ensures First(s, CaptureUsable, j) <==> First(s, CaptureFits, j) {
      assert forall k :: 0 <= k < |s| ==> (CaptureUsable(s[k]) <==> CaptureFits(s[k]));
    }
  }

  /** With the contracts of a session, one target or two and at most 128 shaders, both filters keep the same elements. */
  lemma {:induction false} FiltersAgree(s: seq<Outcome>, n: nat)
    requires n <= |s| && forall k :: 0 <= k < |s| && s[k].Passed? ==> s[k].contract.targets in {1, 2} && s[k].contract.selected < 128
    ensures Running(s, DiffuseFits, n) == Running(s, CaptureFits, n)
    ensures forall i: nat :: i < n ==> (Keeps(s, DiffuseFits, i) <==> Keeps(s, CaptureFits, i))
  {
    if n > 0 { FiltersAgree(s, n - 1); }
  }

  // --- The compaction ---

  /** Where the kept elements were. */
  function Positions(s: seq<Outcome>, fits: Policy, n: nat): (r: seq<nat>)
    requires n <= |s|
    ensures |r| <= n
    ensures forall k :: 0 <= k < |r| ==> r[k] < n
  {
    if n == 0 then []
    else
      var r := Positions(s, fits, n - 1);
      if Keeps(s, fits, n - 1) then r + [n - 1] else r
  }

  lemma {:induction false} PositionsAreKept(s: seq<Outcome>, fits: Policy, n: nat)
    requires n <= |s|
    ensures Increasing(Positions(s, fits, n))
    ensures forall i: nat :: i in Positions(s, fits, n) <==> i < n && Keeps(s, fits, i)
  {
    if n > 0 {
      PositionsAreKept(s, fits, n - 1);
    }
  }

  /** `after` is `before` at the kept positions. */
  ghost predicate Picks<T>(after: seq<T>, before: seq<T>, positions: seq<nat>)
  {
    && |after| == |positions|
    && forall k :: 0 <= k < |positions| ==> positions[k] < |before| && after[k] == before[positions[k]]
  }

  /** The arrays are parallel, sorted and inside the source range. */
  predicate Publishable(batches: seq<Batch>, indices: seq<nat>, kinds: seq<Admission>, first: nat, end: nat)
  {
    && |batches| == |indices| == |kinds| && Increasing(indices)
    && forall k :: 0 <= k < |indices| ==> first <= indices[k] < end
  }

  /** Picking the same increasing positions from all three arrays keeps them so. */
  lemma CompactionPublishable(
    batches: seq<Batch>, indices: seq<nat>, kinds: seq<Admission>, first: nat, end: nat, positions: seq<nat>,
    batches': seq<Batch>, indices': seq<nat>, kinds': seq<Admission>)
    requires Publishable(batches, indices, kinds, first, end) && Increasing(positions)
    requires Picks(batches', batches, positions) && Picks(indices', indices, positions) && Picks(kinds', kinds, positions)
    ensures Publishable(batches', indices', kinds', first, end)
  {
  }

  /** What a filter keeps can be published. */
  lemma KeptPublishable(
    s: seq<Outcome>, fits: Policy, batches: seq<Batch>, indices: seq<nat>, kinds: seq<Admission>, first: nat, end: nat,
    batches': seq<Batch>, indices': seq<nat>, kinds': seq<Admission>)
    requires Publishable(batches, indices, kinds, first, end)
    requires var positions := Positions(s, fits, |s|);
             Picks(batches', batches, positions) && Picks(indices', indices, positions) && Picks(kinds', kinds, positions)
    ensures Publishable(batches', indices', kinds', first, end)
  {
    PositionsAreKept(s, fits, |s|);
    CompactionPublishable(batches, indices, kinds, first, end, Positions(s, fits, |s|), batches', indices', kinds');
  }

  /** The loop of both filters, over `n` elements: the front is picked, the back untouched. */
  ghost predicate Moved<T>(now: seq<T>, before: seq<T>, positions: seq<nat>, n: nat)
  {
    && |now| == |before| && |positions| <= n <= |now|
    && Picks(now[..|positions|], before, positions)
    && now[n..] == before[n..]
  }

  lemma MovesOne<T>(now: seq<T>, before: seq<T>, positions: seq<nat>, n: nat)
    requires Moved(now, before, positions, n) && n < |now|
    ensures now[n] == before[n]
    ensures Moved(now, before, positions, n + 1)
    ensures Moved(now[|positions| := now[n]], before, positions + [n], n + 1)
  {
    assert now[n] == now[n..][0] && before[n] == before[n..][0];
    assert now[n + 1..] == now[n..][1..] && before[n + 1..] == before[n..][1..];
    var next := now[|positions| := now[n]];
    assert next[..|positions| + 1] == now[..|positions|] + [now[n]];
    assert next[n + 1..] == now[n + 1..];
  }

  /** One turn of either loop: element `i` is moved to the front of the arrays when it is kept. */
  method MoveOne(
    replay: PreparedReplay, i: nat, kept: nat, keep: bool,
    ghost batches: seq<Batch>, ghost indices: seq<nat>, ghost kinds: seq<Admission>, ghost positions: seq<nat>)
    requires AllMoved(replay, batches, indices, kinds, positions, i)
    requires kept == |positions| && i < |replay.batches| == |replay.sourceIndices| == |replay.familyKinds|
    modifies replay`batches, replay`sourceIndices, replay`familyKinds
    ensures AllMoved(replay, batches, indices, kinds, if keep then positions + [i] else positions, i + 1)
  {
    MovesOne(replay.batches, batches, positions, i);
    MovesOne(replay.sourceIndices, indices, positions, i);
    MovesOne(replay.familyKinds, kinds, positions, i);
    if keep {
      replay.batches := replay.batches[kept := replay.batches[i]];
      replay.sourceIndices := replay.sourceIndices[kept := replay.sourceIndices[i]];
      replay.familyKinds := replay.familyKinds[kept := replay.familyKinds[i]];
    }
  }

  /** The outcome of element `i`, which the loop has not reached yet. */
  method Examine(
    replay: PreparedReplay, a: Access, pair: Validator, i: nat,
    ghost batches: seq<Batch>, ghost indices: seq<nat>, ghost kinds: seq<Admission>, ghost positions: seq<nat>)
    returns (o: Outcome)
    requires AllMoved(replay, batches, indices, kinds, positions, i)
    requires i < |replay.batches| == |replay.sourceIndices| == |replay.familyKinds|
    ensures |batches| == |indices| && i < |batches| && o == Outcomes(a, replay.manager, pair, batches, indices)[i]
  {
    MovesOne(replay.batches, batches, positions, i);
    MovesOne(replay.sourceIndices, indices, positions, i);
    return OutcomeOf(a, replay.manager, pair, replay.sourceIndices[i], replay.batches[i].shader);
  }

  /** The end of both filters: the arrays are cut and the coverage recomputed. */
  method Cut(replay: PreparedReplay, kept: nat)
    requires kept <= |replay.batches| == |replay.sourceIndices| == |replay.familyKinds|
    requires kept <= replay.coverage.sourceBatches
    modifies replay`batches, replay`sourceIndices, replay`familyKinds, replay`coverage
    ensures replay.batches == old(replay.batches)[..kept] && replay.sourceIndices == old(replay.sourceIndices)[..kept]
    ensures replay.familyKinds == old(replay.familyKinds)[..kept]
    ensures var n := old(replay.coverage).sourceBatches; replay.coverage == Coverage(n, kept, n - kept, n == kept)
  {
    replay.batches := replay.batches[..kept];
    replay.sourceIndices := replay.sourceIndices[..kept];
    replay.familyKinds := replay.familyKinds[..kept];
    var rejected := replay.coverage.sourceBatches - kept;
    replay.coverage := Coverage(replay.coverage.sourceBatches, kept, rejected, rejected == 0);
  }

  ghost predicate AllMoved(
    replay: PreparedReplay, batches: seq<Batch>, indices: seq<nat>, kinds: seq<Admission>, positions: seq<nat>, n: nat)
    reads replay
  {
    && Moved(replay.batches, batches, positions, n) && Moved(replay.sourceIndices, indices, positions, n)
    && Moved(replay.familyKinds, kinds, positions, n)
  }

  /** What a filter leaves in the arrays, `s` being the outcomes of what was there. */
  ghost predicate Filtered(
    replay: PreparedReplay, batches: seq<Batch>, indices: seq<nat>, kinds: seq<Admission>, s: seq<Outcome>, fits: Policy)
    reads replay
  {
    var positions := Positions(s, fits, |s|);
    && Picks(replay.batches, batches, positions) && Picks(replay.sourceIndices, indices, positions)
    && Picks(replay.familyKinds, kinds, positions)
    && replay.coverage.replayBatches == |positions|
    && replay.coverage.rejectedBatches == replay.coverage.sourceBatches - |positions|
    && (replay.coverage.complete <==> replay.coverage.rejectedBatches == 0)
  }

  method FilterDiffuse(replay: PreparedReplay, a: Access, pair: Validator) returns (targets: nat, accepted: nat, rejected: nat)
    requires |replay.batches| == |replay.sourceIndices| == |replay.familyKinds| <= replay.coverage.sourceBatches
    modifies replay`batches, replay`sourceIndices, replay`familyKinds, replay`coverage
    ensures var s := Outcomes(a, replay.manager, pair, old(replay.batches), old(replay.sourceIndices));
            && targets == Running(s, DiffuseFits, |s|)
            && Filtered(replay, old(replay.batches), old(replay.sourceIndices), old(replay.familyKinds), s, DiffuseFits)
    ensures accepted == |replay.batches| && accepted + rejected == replay.coverage.sourceBatches == old(replay.coverage.sourceBatches)
  {
    ghost var s := Outcomes(a, replay.manager, pair, replay.batches, replay.sourceIndices);
    var kept;
    targets, kept := DiffuseLoop(replay, a, pair, s);
    Cut(replay, kept);
    return targets, kept, replay.coverage.sourceBatches - kept;
  }

  method DiffuseLoop(replay: PreparedReplay, a: Access, pair: Validator, ghost s: seq<Outcome>)
    returns (targets: nat, kept: nat)
    requires |replay.batches| == |replay.sourceIndices| == |replay.familyKinds|
    requires s == Outcomes(a, replay.manager, pair, replay.batches, replay.sourceIndices)
    modifies replay`batches, replay`sourceIndices, replay`familyKinds
    ensures var positions := Positions(s, DiffuseFits, |s|);
            kept == |positions| &&
            AllMoved(replay, old(replay.batches), old(replay.sourceIndices), old(replay.familyKinds), positions, |s|)
    ensures targets == Running(s, DiffuseFits, |s|)
  {
    ghost var batches, indices, kinds := replay.batches, replay.sourceIndices, replay.familyKinds;
    var i: nat := 0;
    targets, kept := 0, 0;
    while i < |replay.batches|
      invariant i <= |s| && kept == |Positions(s, DiffuseFits, i)| && targets == Running(s, DiffuseFits, i)
      invariant AllMoved(replay, batches, indices, kinds, Positions(s, DiffuseFits, i), i)
    {
      targets, kept := DiffuseTurn(replay, a, pair, s, i, targets, kept, batches, indices, kinds);
      i := i + 1;
    }
  }

  method DiffuseTurn(
    replay: PreparedReplay, a: Access, pair: Validator, ghost s: seq<Outcome>, i: nat, t: nat, k: nat,
    ghost batches: seq<Batch>, ghost indices: seq<nat>, ghost kinds: seq<Admission>)
    returns (targets: nat, kept: nat)
    requires |batches| == |indices| && s == Outcomes(a, replay.manager, pair, batches, indices) && i < |s|
    requires |replay.batches| == |replay.sourceIndices| == |replay.familyKinds|
    requires t == Running(s, DiffuseFits, i) && k == |Positions(s, DiffuseFits, i)|
    requires AllMoved(replay, batches, indices, kinds, Positions(s, DiffuseFits, i), i)
    modifies replay`batches, replay`sourceIndices, replay`familyKinds
    ensures targets == Running(s, DiffuseFits, i + 1) && kept == |Positions(s, DiffuseFits, i + 1)|
    ensures AllMoved(replay, batches, indices, kinds, Positions(s, DiffuseFits, i + 1), i + 1)
  {
    ghost var positions := Positions(s, DiffuseFits, i);
    var o := Examine(replay, a, pair, i, batches, indices, kinds, positions);
    var keep := o.Passed? && 1 <= o.contract.targets <= 2 && (t == 0 || t == o.contract.targets);
    MoveOne(replay, i, k, keep, batches, indices, kinds, positions);
    if keep { targets, kept := o.contract.targets, k + 1; } else { targets, kept := t, k; }
  }

  // --- The counters of the capture filter ---

  /** Why an element is not kept: 0 unreadable, 1 pair refused, 2 another target count, 3 shader index too large. */
  function Class(o: Outcome, running: nat): (c: nat)
    ensures c <= 4
  {
    match o
    case Lost => 0
    case Refused => 1
    case Passed(contract) =>
      if running != 0 && running != contract.targets then 2 else if contract.selected >= SHADERS then 3 else 4
  }

  function ClassAt(s: seq<Outcome>, i: nat): (c: nat)
    requires i < |s|
    ensures c <= 4 && (c == 4 <==> Keeps(s, CaptureFits, i))
  {
    Class(s[i], Running(s, CaptureFits, i))
  }

  function ClassCount(s: seq<Outcome>, c: nat, n: nat): nat
    requires n <= |s|
  {
    if n == 0 then 0 else ClassCount(s, c, n - 1) + if ClassAt(s, n - 1) == c then 1 else 0
  }

  /** Every element that is not kept is counted in exactly one class. */
  lemma {:induction false} ClassesAddUp(s: seq<Outcome>, n: nat)
    requires n <= |s|
    ensures ClassCount(s, 0, n) + ClassCount(s, 1, n) + ClassCount(s, 2, n) + ClassCount(s, 3, n) +
            |Positions(s, CaptureFits, n)| == n
  {
    if n > 0 { ClassesAddUp(s, n - 1); }
  }

  /** With readable sources and a session of at most 128 shaders, two of the classes stay empty. */
  lemma {:induction false} ClassesUnused(s: seq<Outcome>, n: nat)
    requires n <= |s| && forall i :: 0 <= i < |s| ==> !s[i].Lost? && (s[i].Passed? ==> s[i].contract.selected < SHADERS)
    ensures ClassCount(s, 0, n) == 0 && ClassCount(s, 3, n) == 0
  {
    if n > 0 { ClassesUnused(s, n - 1); }
  }

  /** A shader of the session is used by some kept element. */
  ghost predicate Used(s: seq<Outcome>, shader: nat, n: nat)
    requires n <= |s|
  {
    exists i :: 0 <= i < n && Keeps(s, CaptureFits, i) && s[i].contract.selected == shader
  }

  /** The counters and the marks of the used shaders after `n` elements. */
  ghost predicate Tallied(s: seq<Outcome>, n: nat, counts: seq<nat>, used: seq<bool>)
    requires n <= |s|
  {
    && |counts| == 4 && (forall c :: 0 <= c < 4 ==> counts[c] == ClassCount(s, c, n))
    && |used| == SHADERS && (forall k :: 0 <= k < SHADERS ==> (used[k] <==> Used(s, k, n)))
  }

  /** One counter or one mark more, by the class of the element. */
  predicate Judged(o: Outcome, running: nat, c: seq<nat>, u: seq<bool>, counts: seq<nat>, used: seq<bool>)
  {
    && |counts| == |c| == 4 && |used| == |u| == SHADERS
    && (forall k :: 0 <= k < 4 ==> counts[k] == c[k] + if k == Class(o, running) then 1 else 0)
    && (forall k :: 0 <= k < SHADERS ==> (used[k] <==> u[k] || (Class(o, running) == 4 && k == o.contract.selected)))
  }

  lemma NothingTallied(s: seq<Outcome>)
    ensures Tallied(s, 0, [0, 0, 0, 0], seq(SHADERS, _ => false))
  {
  }

  /** One element more uses its own shader when it is kept. */
  lemma UsedOneMore(s: seq<Outcome>, shader: nat, i: nat)
    requires i < |s|
    ensures Used(s, shader, i + 1) <==> Used(s, shader, i) || (ClassAt(s, i) == 4 && s[i].contract.selected == shader)
  {
    if Used(s, shader, i) {
      var k :| 0 <= k < i && Keeps(s, CaptureFits, k) && s[k].contract.selected == shader;
      assert k < i + 1;
    }
    if Used(s, shader, i + 1) {
      var k :| 0 <= k < i + 1 && Keeps(s, CaptureFits, k) && s[k].contract.selected == shader;
      assert k == i || k < i;
    }
  }

  lemma TalliesOne(s: seq<Outcome>, i: nat, c: seq<nat>, u: seq<bool>, counts: seq<nat>, used: seq<bool>)
    requires i < |s| && Tallied(s, i, c, u) && Judged(s[i], Running(s, CaptureFits, i), c, u, counts, used)
    ensures Tallied(s, i + 1, counts, used)
  {
    forall k | 0 <= k < SHADERS ensures used[k] <==> Used(s, k, i + 1) {
      UsedOneMore(s, k, i);
    }
  }

  /** The branches of the capture loop. */
  method Judge(o: Outcome, targets: nat, counts: seq<nat>, used: seq<bool>)
    returns (keep: bool, counts': seq<nat>, used': seq<bool>)
    requires |counts| == 4 && |used| == SHADERS
    ensures keep <==> Class(o, targets) == 4
    ensures Judged(o, targets, counts, used, counts', used')
  {
    keep, counts', used' := false, counts, used;
    if o.Lost? {
      counts' := counts[0 := counts[0] + 1];
    } else if o.Refused? {
      counts' := counts[1 := counts[1] + 1];
    } else if targets != 0 && targets != o.contract.targets {
      counts' := counts[2 := counts[2] + 1];
    } else if o.contract.selected >= SHADERS {
      counts' := counts[3 := counts[3] + 1];
    } else {
      used' := used[o.contract.selected := true];
      keep := true;
    }
  }

  method FilterCapture(replay: PreparedReplay, a: Access, pair: Validator)
    returns (targets: nat, counts: seq<nat>, used: seq<bool>)
    requires |replay.batches| == |replay.sourceIndices| == |replay.familyKinds| <= replay.coverage.sourceBatches
    modifies replay`batches, replay`sourceIndices, replay`familyKinds, replay`coverage
    ensures var s := Outcomes(a, replay.manager, pair, old(replay.batches), old(replay.sourceIndices));
            && targets == Running(s, CaptureFits, |s|)
            && Filtered(replay, old(replay.batches), old(replay.sourceIndices), old(replay.familyKinds), s, CaptureFits)
            && Tallied(s, |s|, counts, used)
    ensures counts[0] + counts[1] + counts[2] + counts[3] == |old(replay.batches)| - |replay.batches|
    ensures replay.coverage.sourceBatches == old(replay.coverage.sourceBatches)
  {
    ghost var s := Outcomes(a, replay.manager, pair, replay.batches, replay.sourceIndices);
    var kept;
    targets, kept, counts, used := CaptureLoop(replay, a, pair, s);
    ClassesAddUp(s, |s|);
    Cut(replay, kept);
  }

  method CaptureLoop(replay: PreparedReplay, a: Access, pair: Validator, ghost s: seq<Outcome>)
    returns (targets: nat, kept: nat, counts: seq<nat>, used: seq<bool>)
    requires |replay.batches| == |replay.sourceIndices| == |replay.familyKinds|
    requires s == Outcomes(a, replay.manager, pair, replay.batches, replay.sourceIndices)
    modifies replay`batches, replay`sourceIndices, replay`familyKinds
    ensures var positions := Positions(s, CaptureFits, |s|);
            kept == |positions| &&
            AllMoved(replay, old(replay.batches), old(replay.sourceIndices), old(replay.familyKinds), positions, |s|)
    ensures targets == Running(s, CaptureFits, |s|) && Tallied(s, |s|, counts, used)
  {
    ghost var batches, indices, kinds := replay.batches, replay.sourceIndices, replay.familyKinds;
    var i: nat := 0;
    targets, kept, counts, used := 0, 0, [0, 0, 0, 0], seq(SHADERS, _ => false);
    NothingTallied(s);
    while i < |replay.batches|
      invariant i <= |s| && Reached(s, i, targets, kept, counts, used)
      invariant AllMoved(replay, batches, indices, kinds, Positions(s, CaptureFits, i), i)
    {
      targets, kept, counts, used := CaptureTurn(replay, a, pair, s, i, targets, kept, counts, used, batches, indices, kinds);
      i := i + 1;
    }
  }

  ghost predicate Reached(s: seq<Outcome>, i: nat, targets: nat, kept: nat, counts: seq<nat>, used: seq<bool>)
    requires i <= |s|
  {
    targets == Running(s, CaptureFits, i) && kept == |Positions(s, CaptureFits, i)| && Tallied(s, i, counts, used)
  }

  method CaptureTurn(
    replay: PreparedReplay, a: Access, pair: Validator, ghost s: seq<Outcome>, i: nat,
    t: nat, k: nat, c: seq<nat>, u: seq<bool>, ghost batches: seq<Batch>, ghost indices: seq<nat>, ghost kinds: seq<Admission>)
    returns (targets: nat, kept: nat, counts: seq<nat>, used: seq<bool>)
    requires |batches| == |indices| && s == Outcomes(a, replay.manager, pair, batches, indices) && i < |s|
    requires |replay.batches| == |replay.sourceIndices| == |replay.familyKinds|
    requires Reached(s, i, t, k, c, u) && AllMoved(replay, batches, indices, kinds, Positions(s, CaptureFits, i), i)
    modifies replay`batches, replay`sourceIndices, replay`familyKinds
    ensures Reached(s, i + 1, targets, kept, counts, used)
    ensures AllMoved(replay, batches, indices, kinds, Positions(s, CaptureFits, i + 1), i + 1)
  {
    ghost var positions := Positions(s, CaptureFits, i);
    var o := Examine(replay, a, pair, i, batches, indices, kinds, positions);
    var keep;
    keep, counts, used := Judge(o, t, c, u);
    TalliesOne(s, i, c, u, counts, used);
    MoveOne(replay, i, k, keep, batches, indices, kinds, positions);
    if keep { targets, kept := o.contract.targets, k + 1; } else { targets, kept := t, k; }
  }

  /** What either filter leaves of arrays that can be published can be published. */
  lemma FilteredPublishable(
    replay: PreparedReplay, batches: seq<Batch>, indices: seq<nat>, kinds: seq<Admission>, s: seq<Outcome>, fits: Policy)
    requires Filtered(replay, batches, indices, kinds, s, fits)
    requires Publishable(batches, indices, kinds, replay.sourceFirst, replay.sourceEnd)
    ensures Publishable(replay.batches, replay.sourceIndices, replay.familyKinds, replay.sourceFirst, replay.sourceEnd)
  {
    KeptPublishable(s, fits, batches, indices, kinds, replay.sourceFirst, replay.sourceEnd,
                    replay.batches, replay.sourceIndices, replay.familyKinds);
  }

  lemma PreparedPublishable(replay: PreparedReplay, fate: Fates)
    requires replay.IsPrepared(fate)
    ensures Publishable(replay.batches, replay.sourceIndices, replay.familyKinds, replay.sourceFirst, replay.sourceEnd)
    ensures replay.coverage.sourceBatches == |replay.batches| + replay.audit.total
  {
  }

  /** The counts of both filters still add up to what the coverage reports. */
  method CaptureReconciled(replay: PreparedReplay, a: Access, pair: Validator, ghost fate: Fates)
    returns (targets: nat, counts: seq<nat>)
    requires replay.IsPrepared(fate)
    modifies replay`batches, replay`sourceIndices, replay`familyKinds, replay`coverage
    ensures |counts| == 4
    ensures replay.audit.total + counts[0] + counts[1] + counts[2] + counts[3] == replay.coverage.rejectedBatches
    ensures Publishable(replay.batches, replay.sourceIndices, replay.familyKinds, replay.sourceFirst, replay.sourceEnd)
  {
    PreparedPublishable(replay, fate);
    targets, counts := FilterPublishable(replay, a, pair);
  }

  method FilterPublishable(replay: PreparedReplay, a: Access, pair: Validator) returns (targets: nat, counts: seq<nat>)
    requires Publishable(replay.batches, replay.sourceIndices, replay.familyKinds, replay.sourceFirst, replay.sourceEnd)
    requires |replay.batches| <= replay.coverage.sourceBatches
    modifies replay`batches, replay`sourceIndices, replay`familyKinds, replay`coverage
    ensures |counts| == 4
    ensures counts[0] + counts[1] + counts[2] + counts[3] == |old(replay.batches)| - |replay.batches|
    ensures replay.coverage.sourceBatches == old(replay.coverage.sourceBatches)
    ensures replay.coverage.rejectedBatches == replay.coverage.sourceBatches - |replay.batches|
    ensures Publishable(replay.batches, replay.sourceIndices, replay.familyKinds, replay.sourceFirst, replay.sourceEnd)
  {
    ghost var batches, indices, kinds := replay.batches, replay.sourceIndices, replay.familyKinds;
    ghost var s := Outcomes(a, replay.manager, pair, batches, indices);
    var used;
    targets, counts, used := FilterCapture(replay, a, pair);
    FilteredPublishable(replay, batches, indices, kinds, s, CaptureFits);
  }
}
