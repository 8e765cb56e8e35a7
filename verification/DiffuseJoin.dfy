/**
  The draw callbacks of one replayed frame and the join that checks them
  (src/rr_diffuse_draw.h:3-35, src/rr_diffuse_join.h:2-23).

  What the engine answers during a draw is a parameter.  Draws come from several
  workers; each is one atomic step here, and a run is any sequence of them.
*/
module DiffuseJoin {
  import opened ShaderBytes
  import opened AlbedoAccess
  import opened MaterialFamily
  import opened AlbedoPrepare
  import opened DrawRanges
  import opened ReplayStage

  const WORDS := 0x1_0000_0000

  datatype Failure = FrameUnreadable | FrameMismatch | DrawFault | BatchMismatch

  /** The view a worker is drawing; `worker` stands for its thread, context, device state and worker context. */
  datatype Selected = Selected(view: nat, worker: nat)

  datatype Bindings = Bindings(worker: nat, width: nat, height: nat)

  /** One call of the draw callback with the engine's answers. */
  datatype Draw = Draw(
    manager: nat, first: int, endExclusive: int, frame: Option<nat>, view: Option<Selected>, bindings: Option<Bindings>,
    bound: bool, drawn: bool, restored: bool)

  /** One call of the join; `ours` when its renderer, manager and view are those of the replay. */
  datatype Join = Join(ours: bool, frame: Option<nat>)

  datatype State = State(
    stage: Stage, frame: nat, manager: nat, view: nat, width: nat, height: nat, accepted: Word, batches: Word, fault: bool,
    drawCalls: Word, frameSkips: Word, rangeSkips: Word, viewSkips: Word, joined: nat)

  datatype Published = Published(batches: seq<Batch>, indices: seq<nat>, kinds: seq<Admission>, sourceFirst: nat, sourceEnd: nat)

  function Next(x: Word): Word { (x + 1) % WORDS }

  ghost predicate Draws(p: Published, d: Draw)
  {
    Drawable(p.batches, p.indices, p.kinds, p.sourceFirst, p.sourceEnd, d.first, d.endExclusive)
  }

  function RangeOf(p: Published, d: Draw): Range
  {
    if Asked(p.sourceFirst, p.sourceEnd, d.first, d.endExclusive)
    then Range(d.first, if d.endExclusive < 0 then p.sourceEnd else d.endExclusive) else NO_RANGE
  }

  /** The worker's bindings belong to the view that was selected and to the replay's targets. */
  predicate BindingsOk(s: State, d: Draw)
  {
    && d.view.Some? && d.bindings.Some?
    && d.bindings.value == Bindings(d.view.value.worker, s.width, s.height)
  }

  ghost function DrawStep(s: State, p: Published, d: Draw): State
  {
    if s.stage != Recording || s.manager != d.manager || s.fault then s
    else
      var t := s.(drawCalls := Next(s.drawCalls));
      if d.frame != Some(s.frame) then t.(frameSkips := Next(s.frameSkips))
      else if !Draws(p, d) then t.(rangeSkips := Next(s.rangeSkips))
      else if d.view.None? then t.(fault := true)
      else if d.view.value.view == 0 || d.view.value.view != s.view then t.(viewSkips := Next(s.viewSkips))
      else if !BindingsOk(s, d) || !d.bound || !d.drawn || !d.restored then t.(fault := true)
      else t.(batches := (s.batches + RangeCount(p.indices, RangeOf(p, d))) % WORDS)
  }

  /** The draw went through and its batches were counted. */
  ghost predicate Replayed(s: State, p: Published, d: Draw)
  {
    && s.stage == Recording && !s.fault && Draws(p, d) && Undisturbed(s, d)
  }

  /** Nothing about the engine's answers gets in the way of a draw. */
  predicate Undisturbed(s: State, d: Draw)
  {
    && s.manager == d.manager && d.frame == Some(s.frame)
    && d.view.Some? && d.view.value.view != 0 && d.view.value.view == s.view
    && BindingsOk(s, d) && d.bound && d.drawn && d.restored
  }

  function JoinStep(s: State, j: Join): (State, Option<Failure>)
  {
    if s.stage != Recording || !j.ours then (s, None)
    else if j.frame.None? then (s.(stage := Stopped), Some(FrameUnreadable))
    else if j.frame.value != s.frame then (s.(stage := Stopped), Some(FrameMismatch))
    else if s.fault then (s.(stage := Stopped), Some(DrawFault))
    else if s.batches != s.accepted then (s.(stage := Stopped), Some(BatchMismatch))
    else (s.(stage := Joined, joined := s.joined + 1), None)
  }

  class DiffuseReplay {
    const replay: PreparedReplay
    var stage: Stage
    var frame: nat
    var manager: nat
    var view: nat
    var width: nat
    var height: nat
    var accepted: Word
    var batches: Word
    var fault: bool
    var drawCalls: Word
    var frameSkips: Word
    var rangeSkips: Word
    var viewSkips: Word
    var joined: nat

    constructor (replay: PreparedReplay)
      ensures this.replay == replay && stage == Idle && batches == 0 && !fault
    {
      this.replay, stage, frame, manager, view, width, height := replay, Idle, 0, 0, 0, 0, 0;
      accepted, batches, fault, drawCalls, frameSkips, rangeSkips, viewSkips, joined := 0, 0, false, 0, 0, 0, 0, 0;
    }

    function Current(): State
      reads this
    {
      State(stage, frame, manager, view, width, height, accepted, batches, fault,
            drawCalls, frameSkips, rangeSkips, viewSkips, joined)
    }

    function Publication(): Published
      reads this, replay
    {
      Published(replay.batches, replay.sourceIndices, replay.familyKinds, replay.sourceFirst, replay.sourceEnd)
    }

    method DrawCallback(d: Draw)
      requires Increasing(replay.sourceIndices)
      modifies this
      ensures Current() == DrawStep(old(Current()), Publication(), d)
    {
      if stage != Recording || manager != d.manager || fault { return; }
      drawCalls := Next(drawCalls);
      if d.frame != Some(frame) { frameSkips := Next(frameSkips); return; }
      var ok, range := PrepareDrawRange(replay, d.first, d.endExclusive);
      if !ok { rangeSkips := Next(rangeSkips); return; }
      if d.view.None? { fault := true; return; }
      var selected := d.view.value;
      if selected.view == 0 || selected.view != view { viewSkips := Next(viewSkips); return; }
      if d.bindings.None? { fault := true; return; }
      var saved := d.bindings.value;
      if saved.worker != selected.worker { fault := true; return; }
      if saved.width != width || saved.height != height { fault := true; return; }
      if !(d.bound && d.drawn) || !d.restored { fault := true; return; }
      batches := (batches + range.coverage.replayBatches) % WORDS;
    }

    method JoinComplete(j: Join) returns (failure: Option<Failure>)
      modifies this
      ensures (Current(), failure) == JoinStep(old(Current()), j)
    {
      if stage != Recording || !j.ours { return None; }
      failure := if j.frame.None? then Some(FrameUnreadable)
                 else if j.frame.value != frame then Some(FrameMismatch)
                 else if fault then Some(DrawFault)
                 else if batches != accepted then Some(BatchMismatch) else None;
      if failure.Some? { stage := Stopped; return; }
      stage := Joined;
      joined := joined + 1;
    }
  }

  // --- Runs of draws ---

  ghost function AfterDraws(s: State, p: Published, ds: seq<Draw>, n: nat): State
    requires n <= |ds|
  {
    if n == 0 then s else DrawStep(AfterDraws(s, p, ds, n - 1), p, ds[n - 1])
  }

  /** The ranges that were replayed, in the order of the run. */
  ghost function Replays(s: State, p: Published, ds: seq<Draw>, n: nat): seq<Range>
    requires n <= |ds|
  {
    if n == 0 then []
    else
      ReplayNext(AfterDraws(s, p, ds, n - 1), p, ds[n - 1], Replays(s, p, ds, n - 1))
  }

  ghost function ReplayNext(t: State, p: Published, d: Draw, rs: seq<Range>): seq<Range>
  {
    if Replayed(t, p, d) then rs + [RangeOf(p, d)] else rs
  }

  /** A draw changes only the counters and the fault flag. */
  predicate SameReplay(s: State, t: State)
  {
    && t.stage == s.stage && t.frame == s.frame && t.manager == s.manager && t.view == s.view
    && t.width == s.width && t.height == s.height && t.accepted == s.accepted && t.joined == s.joined
  }

  lemma {:induction false} DrawsKeep(s: State, p: Published, ds: seq<Draw>, n: nat)
    requires n <= |ds|
    ensures SameReplay(s, AfterDraws(s, p, ds, n))
  {
    if n > 0 { DrawsKeep(s, p, ds, n - 1); }
  }

  lemma {:induction false} SumPrefix(indices: seq<nat>, rs: seq<Range>, more: seq<Range>, n: nat)
    requires n <= |rs|
    ensures SumOver(indices, rs + more, n) == SumOver(indices, rs, n)
  {
    if n > 0 {
      SumPrefix(indices, rs, more, n - 1);
      assert (rs + more)[n - 1] == rs[n - 1];
    }
  }

  lemma AddsModulo(a: nat, b: nat, c: nat)
    ensures ((a + b) % WORDS + c) % WORDS == (a + b + c) % WORDS
  {
  }

  /** One draw adds what its range holds when it is replayed, and nothing otherwise. */
  lemma DrawAdds(s: State, p: Published, d: Draw)
    ensures DrawStep(s, p, d).batches ==
            if Replayed(s, p, d) then (s.batches + RangeCount(p.indices, RangeOf(p, d))) % WORDS else s.batches
  {
  }

  lemma SumAppends(indices: seq<nat>, rs: seq<Range>, r: Range)
    ensures SumOver(indices, rs + [r], |rs + [r]|) == SumOver(indices, rs, |rs|) + RangeCount(indices, r)
  {
    SumPrefix(indices, rs, [r], |rs|);
    assert (rs + [r])[|rs|] == r;
  }

  lemma BatchesStep(start: nat, t: State, p: Published, d: Draw, rs: seq<Range>)
    requires t.batches == (start + SumOver(p.indices, rs, |rs|)) % WORDS
    ensures var rs' := ReplayNext(t, p, d, rs);
            DrawStep(t, p, d).batches == (start + SumOver(p.indices, rs', |rs'|)) % WORDS
  {
    DrawAdds(t, p, d);
    if Replayed(t, p, d) {
      var r := RangeOf(p, d);
      SumAppends(p.indices, rs, r);
      AddsModulo(start, SumOver(p.indices, rs, |rs|), RangeCount(p.indices, r));
    }
  }

  /** The counter is the sum of what the replayed ranges hold. */
  lemma {:induction false} BatchesAreSum(s: State, p: Published, ds: seq<Draw>, n: nat)
    requires n <= |ds|
    ensures var rs := Replays(s, p, ds, n);
            AfterDraws(s, p, ds, n).batches == (s.batches + SumOver(p.indices, rs, |rs|)) % WORDS
  {
    if n > 0 {
      BatchesAreSum(s, p, ds, n - 1);
      BatchesStep(s.batches, AfterDraws(s, p, ds, n - 1), p, ds[n - 1], Replays(s, p, ds, n - 1));
    }
  }

  /** A replay that starts recording, with its counters at zero. */
  predicate Started(s: State, p: Published)
  {
    s.stage == Recording && s.batches == 0 && !s.fault && s.accepted == |p.indices|
  }

  lemma JoinByCoverage(t: State, p: Published, rs: seq<Range>, j: Join)
    requires t.stage == Recording && !t.fault && t.accepted == |p.indices| && j == Join(true, Some(t.frame))
    requires NoneTwice(p.indices, rs) && t.batches == SumOver(p.indices, rs, |rs|) % WORDS
    ensures JoinStep(t, j) == if Covered(p.indices, rs) then (t.(stage := Joined, joined := t.joined + 1), None)
                              else (t.(stage := Stopped), Some(BatchMismatch))
  {
    SumIsTotal(p.indices, rs);
  }

  /** What a run of draws comes to: its end and the ranges it replayed. */
  ghost predicate Ran(s: State, p: Published, ds: seq<Draw>, t: State, rs: seq<Range>)
  {
    t == AfterDraws(s, p, ds, |ds|) && rs == Replays(s, p, ds, |ds|)
  }

  lemma RanSums(s: State, p: Published, ds: seq<Draw>, t: State, rs: seq<Range>)
    requires Ran(s, p, ds, t, rs)
    ensures SameReplay(s, t) && t.batches == (s.batches + SumOver(p.indices, rs, |rs|)) % WORDS
  {
    DrawsKeep(s, p, ds, |ds|);
    BatchesAreSum(s, p, ds, |ds|);
  }

  /**
    After any draws without a fault that replay no batch twice, the join goes
    through exactly when every accepted batch was replayed.
  */
  lemma JoinedIffCovered(s: State, p: Published, ds: seq<Draw>, t: State, rs: seq<Range>, j: Join)
    requires Ran(s, p, ds, t, rs) && Started(s, p) && !t.fault && NoneTwice(p.indices, rs) && j == Join(true, Some(s.frame))
    ensures JoinStep(t, j) == if Covered(p.indices, rs) then (t.(stage := Joined, joined := t.joined + 1), None)
                              else (t.(stage := Stopped), Some(BatchMismatch))
  {
    RanSums(s, p, ds, t, rs);
    JoinByCoverage(t, p, rs, j);
  }

  /**
    What a join that goes through proves: every accepted batch was replayed if and
    only if none was replayed twice, as long as the 32-bit counter did not wrap.
    That none was replayed twice is enough even then.
  */
  lemma JoinProvesCoverage(s: State, p: Published, ds: seq<Draw>, t: State, rs: seq<Range>, j: Join)
    requires Ran(s, p, ds, t, rs) && Started(s, p) && JoinStep(t, j).0.stage == Joined
    ensures NoneTwice(p.indices, rs) ==> Covered(p.indices, rs)
    ensures SumOver(p.indices, rs, |rs|) < WORDS ==> (Covered(p.indices, rs) <==> NoneTwice(p.indices, rs))
  {
    RanSums(s, p, ds, t, rs);
    TotalProves(p.indices, rs);
  }

  /** What a sum that agrees with the total, modulo 2^32, says of the ranges. */
  lemma TotalProves(indices: seq<nat>, rs: seq<Range>)
    requires |indices| < WORDS && SumOver(indices, rs, |rs|) % WORDS == |indices|
    ensures NoneTwice(indices, rs) ==> Covered(indices, rs)
    ensures SumOver(indices, rs, |rs|) < WORDS ==> (Covered(indices, rs) <==> NoneTwice(indices, rs))
  {
    if NoneTwice(indices, rs) { SumIsTotal(indices, rs); }
    if SumOver(indices, rs, |rs|) < WORDS { TotalMeansCovered(indices, rs); }
  }

  function RangesOf(p: Published, ds: seq<Draw>): (rs: seq<Range>)
    ensures |rs| == |ds| && forall i :: 0 <= i < |rs| ==> rs[i] == RangeOf(p, ds[i])
  {
    seq(|ds|, i requires 0 <= i < |ds| => RangeOf(p, ds[i]))
  }

  /** Undisturbed draws on valid ranges: those that hold no accepted batch are skipped and add nothing. */
  predicate AllUndisturbed(s: State, p: Published, ds: seq<Draw>)
  {
    && |p.batches| == |p.indices| == |p.kinds|
    && forall i :: 0 <= i < |ds| ==>
         Undisturbed(s, ds[i]) && Asked(p.sourceFirst, p.sourceEnd, ds[i].first, ds[i].endExclusive)
  }

  lemma UndisturbedStep(s: State, t: State, p: Published, d: Draw, sum: nat)
    requires Started(s, p) && SameReplay(s, t) && !t.fault && t.batches == sum % WORDS
    requires Undisturbed(s, d) && |p.batches| == |p.indices| == |p.kinds|
    requires Asked(p.sourceFirst, p.sourceEnd, d.first, d.endExclusive)
    ensures var u := DrawStep(t, p, d); !u.fault && u.batches == (sum + RangeCount(p.indices, RangeOf(p, d))) % WORDS
  {
    assert Undisturbed(t, d);
    AddsModulo(0, sum, RangeCount(p.indices, RangeOf(p, d)));
  }

  lemma {:induction false} UndisturbedSum(s: State, p: Published, ds: seq<Draw>, n: nat)
    requires n <= |ds| && Started(s, p) && AllUndisturbed(s, p, ds)
    ensures var t := AfterDraws(s, p, ds, n);
            !t.fault && t.batches == SumOver(p.indices, RangesOf(p, ds), n) % WORDS
  {
    if n > 0 {
      UndisturbedSum(s, p, ds, n - 1);
      DrawsKeep(s, p, ds, n - 1);
      UndisturbedStep(s, AfterDraws(s, p, ds, n - 1), p, ds[n - 1], SumOver(p.indices, RangesOf(p, ds), n - 1));
    }
  }

  /** The draws partition the source range, in whatever order they come. */
  ghost predicate Partition(p: Published, ds: seq<Draw>)
  {
    && Disjoint(RangesOf(p, ds))
    && forall x: nat :: p.sourceFirst <= x < p.sourceEnd ==> CoveredBy(RangesOf(p, ds), |ds|, x)
  }

  /** Draws that partition the source range never end in a batch mismatch. */
  lemma PartitionJoins(s: State, p: Published, ds: seq<Draw>, j: Join)
    requires Started(s, p) && AllUndisturbed(s, p, ds) && Partition(p, ds)
    requires forall k :: 0 <= k < |p.indices| ==> p.sourceFirst <= p.indices[k] < p.sourceEnd
    requires j == Join(true, Some(s.frame))
    ensures JoinStep(AfterDraws(s, p, ds, |ds|), j) ==
            (AfterDraws(s, p, ds, |ds|).(stage := Joined, joined := s.joined + 1), None)
  {
    DrawsKeep(s, p, ds, |ds|);
    UndisturbedSum(s, p, ds, |ds|);
    DisjointNoneTwice(p.indices, RangesOf(p, ds));
    JoinByCoverage(AfterDraws(s, p, ds, |ds|), p, RangesOf(p, ds), j);
  }

  // --- Cutting the range, and faults ---

  /** Cut points from the start of the source range to its end. */
  predicate Cuts(p: Published, cuts: seq<nat>)
  {
    && |cuts| >= 2 && cuts[0] == p.sourceFirst && cuts[|cuts| - 1] == p.sourceEnd && Increasing(cuts)
  }

  /** One draw between each two cut points; the last may leave its end open. */
  predicate DrawsCuts(ds: seq<Draw>, cuts: seq<nat>)
  {
    && |ds| == |cuts| - 1
    && forall i :: 0 <= i < |ds| ==>
         ds[i].first == cuts[i] && (ds[i].endExclusive == cuts[i + 1] || (i == |ds| - 1 && ds[i].endExclusive < 0))
  }

  lemma CutRange(p: Published, ds: seq<Draw>, cuts: seq<nat>, i: nat)
    requires Cuts(p, cuts) && DrawsCuts(ds, cuts) && i < |ds|
    ensures Asked(p.sourceFirst, p.sourceEnd, ds[i].first, ds[i].endExclusive)
    ensures RangeOf(p, ds[i]) == Range(cuts[i], cuts[i + 1])
  {
    assert cuts[i] < cuts[i + 1] && cuts[i + 1] <= cuts[|cuts| - 1];
    assert cuts[0] <= cuts[i];
  }

  /** The last cut point not above `x`. */
  lemma {:induction false} CutBefore(cuts: seq<nat>, n: nat, x: nat) returns (i: nat)
    requires n < |cuts| && cuts[0] <= x < cuts[n]
    ensures i < n && cuts[i] <= x < cuts[i + 1]
  {
    if cuts[n - 1] <= x { i := n - 1; } else { i := CutBefore(cuts, n - 1, x); }
  }

  lemma CutsPartition(p: Published, ds: seq<Draw>, cuts: seq<nat>)
    requires Cuts(p, cuts) && DrawsCuts(ds, cuts)
    ensures Partition(p, ds)
  {
    var rs := RangesOf(p, ds);
    forall i, j | 0 <= i < j < |rs| ensures Apart(rs[i], rs[j]) {
      CutRange(p, ds, cuts, i);
      CutRange(p, ds, cuts, j);
      assert cuts[i + 1] <= cuts[j];
    }
    forall x: nat | p.sourceFirst <= x < p.sourceEnd ensures CoveredBy(rs, |ds|, x) {
      var i := CutBefore(cuts, |cuts| - 1, x);
      CutRange(p, ds, cuts, i);
      assert Within(rs[i], x);
    }
  }

  /** However the source range is cut into draws, undisturbed they end in a join; one draw of all of it is such a cut. */
  lemma CutsJoin(s: State, p: Published, ds: seq<Draw>, cuts: seq<nat>, j: Join)
    requires Started(s, p) && |p.batches| == |p.indices| == |p.kinds| && (forall i :: 0 <= i < |ds| ==> Undisturbed(s, ds[i]))
    requires Cuts(p, cuts) && DrawsCuts(ds, cuts) && j == Join(true, Some(s.frame))
    requires forall k :: 0 <= k < |p.indices| ==> p.sourceFirst <= p.indices[k] < p.sourceEnd
    ensures JoinStep(AfterDraws(s, p, ds, |ds|), j).0.stage == Joined && JoinStep(AfterDraws(s, p, ds, |ds|), j).1 == None
  {
    forall i | 0 <= i < |ds| ensures Asked(p.sourceFirst, p.sourceEnd, ds[i].first, ds[i].endExclusive) {
      CutRange(p, ds, cuts, i);
    }
    CutsPartition(p, ds, cuts);
    PartitionJoins(s, p, ds, j);
  }

  /** A draw of the replay goes wrong: its view cannot be read, or is the replay's and its bindings or one of the calls fails. */
  ghost predicate Breaks(s: State, p: Published, d: Draw)
  {
    && d.manager == s.manager && d.frame == Some(s.frame) && Draws(p, d)
    && (d.view.None? ||
        (d.view.value.view == s.view != 0 &&
         !(d.bindings == Some(Bindings(d.view.value.worker, s.width, s.height)) && d.bound && d.drawn && d.restored)))
  }

  ghost predicate Broken(s: State, p: Published, ds: seq<Draw>, n: nat)
    requires n <= |ds|
  {
    exists i :: 0 <= i < n && Breaks(s, p, ds[i])
  }

  lemma FaultStep(s: State, t: State, p: Published, d: Draw)
    requires s.stage == Recording && SameReplay(s, t)
    ensures DrawStep(t, p, d).fault <==> t.fault || Breaks(s, p, d)
  {
  }

  /** The fault flag says exactly whether one of the draws went wrong. */
  lemma {:induction false} FaultIff(s: State, p: Published, ds: seq<Draw>, n: nat)
    requires Started(s, p) && n <= |ds|
    ensures AfterDraws(s, p, ds, n).fault <==> Broken(s, p, ds, n)
  {
    if n > 0 {
      FaultIff(s, p, ds, n - 1);
      DrawsKeep(s, p, ds, n - 1);
      FaultStep(s, AfterDraws(s, p, ds, n - 1), p, ds[n - 1]);
      if Broken(s, p, ds, n - 1) {
        var i :| 0 <= i < n - 1 && Breaks(s, p, ds[i]);
        assert Broken(s, p, ds, n);
      }
    }
  }

  /** After any draws, the join of the replay's own frame goes through exactly when none went wrong and the totals agree modulo 2^32. */
  lemma JoinedIff(s: State, p: Published, ds: seq<Draw>, t: State, rs: seq<Range>, j: Join)
    requires Ran(s, p, ds, t, rs) && Started(s, p) && j.ours
    ensures JoinStep(t, j).0.stage == Joined <==>
            j.frame == Some(s.frame) && !Broken(s, p, ds, |ds|) && SumOver(p.indices, rs, |rs|) % 0x1_0000_0000 == |p.indices|
    ensures JoinStep(t, j).0.stage == Joined || JoinStep(t, j).0.stage == Stopped
  {
    RanSums(s, p, ds, t, rs);
    FaultIff(s, p, ds, |ds|);
  }

  // --- Every draw is counted ---

  /** How many draws reached the replay: of its manager, before any went wrong. */
  ghost function Reached(s: State, p: Published, ds: seq<Draw>, n: nat): (c: nat)
    requires n <= |ds|
    ensures c <= n
  {
    if n == 0 then 0
    else Reached(s, p, ds, n - 1) + if ds[n - 1].manager == s.manager && !Broken(s, p, ds, n - 1) then 1 else 0
  }

  predicate CountersAtZero(s: State) { s.drawCalls == s.frameSkips == s.rangeSkips == s.viewSkips == 0 }

  /** Each draw that reached the replay was replayed, skipped for its frame, its range or its view, or was the one that went wrong. */
  ghost predicate Accounted(s: State, p: Published, ds: seq<Draw>, n: nat)
    requires n <= |ds|
  {
    var t := AfterDraws(s, p, ds, n);
    && t.drawCalls == Reached(s, p, ds, n)
    && t.drawCalls == t.frameSkips + t.rangeSkips + t.viewSkips + |Replays(s, p, ds, n)| + if t.fault then 1 else 0
  }

  /** One draw moves the number of calls and exactly one of what they come to. */
  lemma DrawCounts(t: State, p: Published, d: Draw, rs: seq<Range>)
    requires t.stage == Recording && t.drawCalls + 1 < WORDS && t.frameSkips + 1 < WORDS && t.rangeSkips + 1 < WORDS && t.viewSkips + 1 < WORDS
    ensures var u, qs := DrawStep(t, p, d), ReplayNext(t, p, d, rs);
            var more: int := if d.manager == t.manager && !t.fault then 1 else 0;
            && u.drawCalls == t.drawCalls + more
            && u.frameSkips + u.rangeSkips + u.viewSkips + |qs| + (if u.fault then 1 else 0) ==
               t.frameSkips + t.rangeSkips + t.viewSkips + |rs| + (if t.fault then 1 else 0) + more
  {
  }

  lemma {:induction false} DrawsAccounted(s: State, p: Published, ds: seq<Draw>, n: nat)
    requires n <= |ds| && |ds| + 1 < WORDS && Started(s, p) && CountersAtZero(s)
    ensures Accounted(s, p, ds, n)
  {
    if n > 0 {
      DrawsAccounted(s, p, ds, n - 1);
      DrawsKeep(s, p, ds, n - 1);
      FaultIff(s, p, ds, n - 1);
      DrawCounts(AfterDraws(s, p, ds, n - 1), p, ds[n - 1], Replays(s, p, ds, n - 1));
    }
  }

  lemma TwiceIsOnce(r: Range, x: nat)
    ensures CoveredBy([r] + [r], 2, x) <==> Within(r, x)
  {
    var rs := [r] + [r];
    assert rs[0] == r && rs[1] == r;
    assert CoveredBy(rs, 2, x) ==> exists k :: 0 <= k < 2 && Within(rs[k], x);
    assert Within(r, x) ==> Within(rs[0], x);
  }

  /** The totals alone prove nothing once ranges overlap: one batch drawn twice hides another never drawn. */
  lemma OverlapHidesMiss(s: State, p: Published, d: Draw, j: Join)
    requires Started(s, p) && p.indices == [0, 1] && |p.batches| == |p.kinds| == 2 && p.sourceFirst == 0 && p.sourceEnd == 2
    requires Undisturbed(s, d) && d.first == 0 && d.endExclusive == 1 && j == Join(true, Some(s.frame))
    ensures JoinStep(AfterDraws(s, p, [d, d], 2), j).0.stage == Joined
    ensures !Covered(p.indices, Replays(s, p, [d, d], 2))
  {
    var r := Range(0, 1);
    var inside := (x: nat) => Within(r, x);
    assert CountIf(p.indices, 0, inside) == 0 && CountIf(p.indices, 1, inside) == 1 && CountIf(p.indices, 2, inside) == 1;
    assert RangeOf(p, d) == r && RangeCount(p.indices, r) == 1;
    var t := DrawStep(s, p, d);
    assert Replayed(s, p, d) && t == s.(drawCalls := t.drawCalls, batches := 1);
    assert Replayed(t, p, d) && DrawStep(t, p, d).batches == 2;
    TwoDraws(s, p, d);
    TwiceIsOnce(r, p.indices[1]);
  }

  /** A run of the same draw twice. */
  lemma TwoDraws(s: State, p: Published, d: Draw)
    requires Replayed(s, p, d) && Replayed(DrawStep(s, p, d), p, d)
    ensures AfterDraws(s, p, [d, d], 2) == DrawStep(DrawStep(s, p, d), p, d)
    ensures Replays(s, p, [d, d], 2) == [RangeOf(p, d)] + [RangeOf(p, d)]
  {
    var ds := [d, d];
    assert AfterDraws(s, p, ds, 0) == s && Replays(s, p, ds, 0) == [];
    assert AfterDraws(s, p, ds, 1) == DrawStep(s, p, d) && Replays(s, p, ds, 1) == [RangeOf(p, d)];
  }
}
