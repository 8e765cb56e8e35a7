/**
  What the replay targets go through when nothing fails: frames are recorded, and
  a change of extent is completed; and exactly what stops the replay
  (src/rr_diffuse_resize.h:20-53, src/rr_diffuse_replay.h:80-209).
*/
module DiffuseResizeProgress {
  import opened ReplayStage
  import opened DiffuseResize
  import opened DiffuseResizeHistory

  // --- Destroying and making targets ---

  /** The targets that exist are destroyed, in order. */
  function Destructions(targets: seq<bool>, i: nat): seq<Event>
    requires i <= |targets|
    decreases |targets| - i
  {
    if i == |targets| then [] else (if targets[i] then [Destroyed(i)] else []) + Destructions(targets, i + 1)
  }

  lemma {:induction false} DestroyAll(s: Life, i: nat, destroys: nat -> bool)
    requires i <= |s.targets| && forall k :: i <= k < |s.targets| && s.targets[k] ==> destroys(k)
    ensures var r := DestroyFrom(s, i, destroys);
            && r.ok && |r.life.targets| == |s.targets|
            && r.life == s.(targets := r.life.targets, log := s.log + Destructions(s.targets, i))
            && forall k :: 0 <= k < |s.targets| ==> r.life.targets[k] == (k < i && s.targets[k])
    decreases |s.targets| - i
  {
    if i < |s.targets| {
      if !s.targets[i] {
        DestroyAll(s, i + 1, destroys);
      } else {
        var t := s.(targets := s.targets[i := false], log := s.log + [Destroyed(i)]);
        DestroyAll(t, i + 1, destroys);
        SameDestructions(s.targets, t.targets, i + 1);
      }
    }
  }

  lemma {:induction false} DestroyFails(s: Life, i: nat, destroys: nat -> bool, k: nat)
    requires i <= k < |s.targets| && s.targets[k] && !destroys(k)
    ensures !DestroyFrom(s, i, destroys).ok && DestroyFrom(s, i, destroys).life.stage == Stopped
    decreases |s.targets| - i
  {
    if !s.targets[i] {
      DestroyFails(s, i + 1, destroys, k);
    } else if destroys(i) {
      DestroyFails(s.(targets := s.targets[i := false], log := s.log + [Destroyed(i)]), i + 1, destroys, k);
    }
  }

  lemma {:induction false} SameDestructions(a: seq<bool>, b: seq<bool>, i: nat)
    requires |a| == |b| && i <= |a| && forall k :: i <= k < |a| ==> a[k] == b[k]
    ensures Destructions(a, i) == Destructions(b, i)
    decreases |a| - i
  {
    if i < |a| { SameDestructions(a, b, i + 1); }
  }

  /** Target `i` exists or can be created, and can be cleared. */
  predicate Makes(targets: seq<bool>, i: nat, f: Frame)
  {
    ((i < |targets| && targets[i]) || f.creates(i)) && f.clears(i)
  }

  /** The targets of the frame, and the character target if it is wanted and can be had. */
  function MadeTargets(targets: seq<bool>, f: Frame): (made: seq<bool>)
    ensures |made| == |targets|
  {
    seq(|targets|, i requires 0 <= i < |targets| => targets[i] || i < f.targets || (i == 2 && f.character && f.creates(2)))
  }

  lemma MadeLess(targets: seq<bool>, i: nat, f: Frame)
    requires i < |targets| && i < f.targets
    ensures MadeTargets(targets[i := true], f) == MadeTargets(targets, f)
  {
  }

  lemma MakeNone(s: Life, f: Frame)
    requires |s.targets| == 3 && f.targets <= 2 && forall k :: 0 <= k < f.targets ==> s.targets[k]
    ensures Record(s, f) == s.(stage := Recording, targets := MadeTargets(s.targets, f))
  {
    assert Record(s, f).targets == MadeTargets(s.targets, f);
  }

  lemma {:induction false} MakeAll(s: Life, i: nat, f: Frame)
    requires |s.targets| == 3 && f.targets <= 2 && i <= f.targets && forall k :: 0 <= k < i ==> s.targets[k]
    requires forall k: nat :: i <= k < f.targets ==> Makes(s.targets, k, f)
    ensures MakeFrom(s, i, f) == s.(stage := Recording, targets := MadeTargets(s.targets, f))
    decreases f.targets - i
  {
    if i < f.targets {
      assert Makes(s.targets, i, f);
      var u := s.(targets := s.targets[i := true]);
      forall k: nat | i + 1 <= k < f.targets ensures Makes(u.targets, k, f) { assert Makes(s.targets, k, f); }
      MakeAll(u, i + 1, f);
      MadeLess(s.targets, i, f);
    } else {
      MakeNone(s, f);
    }
  }

  lemma {:induction false} MakeFails(s: Life, i: nat, f: Frame, k: nat)
    requires |s.targets| == 3 && f.targets <= 2 && i <= k < f.targets && !Makes(s.targets, k, f)
    ensures MakeFrom(s, i, f).stage == Stopped
    decreases f.targets - i
  {
    if i < k && Makes(s.targets, i, f) {
      var u := s.(targets := s.targets[i := true]);
      assert !Makes(u.targets, k, f);
      MakeFails(u, i + 1, f, k);
    }
  }

  // --- One frame ---

  /** A frame that may be prepared now: newer, on the same queue, and with batches to draw. */
  predicate Prepared(s: Life, f: Frame)
  {
    && f.ready && (s.made ==> s.frame < f.frame && f.sameQueue) && (!s.made ==> f.ownerMade && f.fenceMade)
    && f.selection == Accepted && f.targets <= 2 && s.stage != Stopped && s.stage != Recording
  }

  predicate MakesAll(targets: seq<bool>, f: Frame) { forall k: nat :: k < f.targets ==> Makes(targets, k, f) }

  /** The frame is being recorded into its targets, whose use is noted. */
  predicate Records(s: Life, t: Life, f: Frame, targets: seq<bool>)
  {
    && t.stage == Recording && t.made && t.frame == f.frame && t.width == f.width && t.height == f.height && t.lastUse == f.present
    && !t.pending && t.retireFence == 0 && t.signal == s.signal && t.targets == MadeTargets(targets, f)
    && |t.log| > 0 && t.log[|t.log| - 1] == Used(f.present)
  }

  /** The first frame makes its targets and is recorded. */
  lemma FirstFrameRecords(s: Life, f: Frame)
    requires !s.made && WellFormed(s) && !s.pending && Prepared(s, f) && MakesAll(s.targets, f)
    ensures Records(s, PrepareStep(s, f), f, s.targets) && PrepareStep(s, f).log == s.log + [Used(f.present)]
  {
    var t := s.(made := true, width := f.width, height := f.height);
    MakeAll(Use(t, f), 0, f);
  }

  /** A later frame of the same extent is recorded into the targets there are. */
  lemma NextFrameRecords(s: Life, f: Frame)
    requires s.made && WellFormed(s) && !s.pending && Prepared(s, f) && MakesAll(s.targets, f) && s.width == f.width && s.height == f.height
    ensures Records(s, PrepareStep(s, f), f, s.targets) && PrepareStep(s, f).log == s.log + [Used(f.present)]
  {
    MakeAll(Use(s, f), 0, f);
  }

  /** A frame without batches to draw leaves everything but its number alone. */
  lemma EmptyFrame(s: Life, f: Frame)
    requires s.made && !s.pending && Prepared(s, f.(selection := Accepted)) && f.selection == Empty && s.width == f.width && s.height == f.height
    ensures PrepareStep(s, f) == s.(stage := Idle, frame := f.frame)
  {
  }

  /** A clean join ends the recording, and the replay is ready for the next frame. */
  lemma JoinGoesOn(s: Life, f: Frame, g: Frame)
    requires s.made && WellFormed(s) && !s.pending && Prepared(s, f) && MakesAll(s.targets, f) && s.width == f.width && s.height == f.height
    requires g.ready && g.sameQueue && g.selection == Accepted && g.targets <= 2 && f.frame < g.frame
    ensures var joined := Step(Step(s, Prepare(f)), Join(true));
            joined == PrepareStep(s, f).(stage := Joined) && Prepared(joined, g)
  {
    NextFrameRecords(s, f);
  }

  // --- A change of extent ---

  /** The extent differs, on the recording thread. */
  predicate Differs(s: Life, f: Frame)
  {
    s.made && f.onThread && (s.width != f.width || s.height != f.height)
  }

  /** A frame of another extent is put off: nothing is recorded, used or destroyed. */
  lemma ChangeWaits(s: Life, f: Frame)
    requires WellFormed(s) && !s.pending && Prepared(s, f) && Differs(s, f)
    ensures PrepareStep(s, f) == s.(pending := true, stage := Idle)
  {
  }

  /** The first Present after the last use signals a new fence value for it. */
  lemma PresentSignals(s: Life, present: nat)
    requires s.made && s.pending && s.stage == Idle && s.retireFence == 0 && present > s.lastUse
    ensures PresentStep(s, present, true, true) ==
            s.(signal := s.signal + 1, retireFence := s.signal + 1, log := s.log + [Signalled(present, s.signal + 1)])
  {
  }

  /** Until the value is reached, frames only look at the fence. */
  lemma ChangeGoesOn(s: Life, f: Frame)
    requires WellFormed(s) && s.made && s.pending && s.retireFence != 0 && Prepared(s, f) && f.onThread
    requires f.reading.Reached? && f.reading.value < s.retireFence
    ensures PrepareStep(s, f) == s.(log := s.log + [Seen(f.reading.value)])
  {
  }

  /** Once it is, all targets are destroyed and the frame, of whatever extent it is by then, is recorded into new ones. */
  lemma ChangeCompletes(s: Life, f: Frame)
    requires WellFormed(s) && s.made && s.pending && s.retireFence != 0 && Prepared(s, f) && f.onThread
    requires f.reading.Reached? && f.reading.value >= s.retireFence
    requires (forall k :: 0 <= k < 3 && s.targets[k] ==> f.destroys(k)) && MakesAll([false, false, false], f)
    ensures var t := PrepareStep(s, f);
            Records(s, t, f, [false, false, false]) &&
            t.log == s.log + [Seen(f.reading.value)] + Destructions(s.targets, 0) + [Used(f.present)]
  {
    var seen := s.(log := s.log + [Seen(f.reading.value)]);
    DestroyAll(seen, 0, f.destroys);
    var r := Resized(DestroyFrom(seen, 0, f.destroys), f);
    assert r.life.targets == [false, false, false];
    MakeAll(Use(r.life, f), 0, f);
  }

  /** A change of extent is completed by two frames with a Present between them. */
  lemma ResizeCompletes(s: Life, f: Frame, present: nat, g: Frame)
    requires WellFormed(s) && !s.pending && s.retireFence == 0 && Prepared(s, f) && Differs(s, f) && present > s.lastUse
    requires Prepared(s, g) && g.onThread && g.reading.Reached? && g.reading.value > s.signal
    requires (forall k :: 0 <= k < 3 && s.targets[k] ==> g.destroys(k)) && MakesAll([false, false, false], g)
    ensures var waiting := Step(s, Prepare(f));
            var signalled := Step(waiting, AfterPresent(present, true, true));
            var t := Step(signalled, Prepare(g));
            && waiting.pending && signalled.retireFence == s.signal + 1
            && Records(signalled, t, g, [false, false, false])
  {
    ChangeWaits(s, f);
    StepKeeps(s, Prepare(f));
    var waiting := Step(s, Prepare(f));
    PresentSignals(waiting, present);
    StepKeeps(waiting, AfterPresent(present, true, true));
    ChangeCompletes(Step(waiting, AfterPresent(present, true, true)), g);
  }

  // --- Stopping ---

  /** The frame comes to the fence of a pending change. */
  predicate AtFence(s: Life, f: Frame)
  {
    s.made && s.pending && f.onThread && s.retireFence != 0
  }

  /** The frame need not wait for a change of extent. */
  predicate Unhindered(s: Life, f: Frame)
  {
    !s.made || (!s.pending && s.width == f.width && s.height == f.height) ||
    (AtFence(s, f) && f.reading.Reached? && f.reading.value >= s.retireFence && forall k :: 0 <= k < |s.targets| && s.targets[k] ==> f.destroys(k))
  }

  /** What is there when the frame makes its targets. */
  function Standing(s: Life): seq<bool> { if s.made && s.pending then [false, false, false] else s.targets }

  /** What stops the replay while a frame is prepared. */
  ghost predicate Faults(s: Life, f: Frame)
  {
    && f.ready && (s.made ==> s.frame < f.frame)
    && (|| s.stage == Recording
        || (if s.made then !f.sameQueue else f.ownerMade && !f.fenceMade)
        || (AtFence(s, f) && f.reading.Removed?)
        || (AtFence(s, f) && f.reading.Reached? && f.reading.value >= s.retireFence && exists k :: 0 <= k < |s.targets| && s.targets[k] && !f.destroys(k))
        || ((s.made || f.ownerMade) && Unhindered(s, f) &&
            (f.selection == Raised || (f.selection == Accepted && !MakesAll(Standing(s), f)))))
  }

  lemma MakingStops(s: Life, f: Frame)
    requires |s.targets| == 3 && f.targets <= 2
    ensures MakeFrom(s, 0, f).stage == Stopped <==> !MakesAll(s.targets, f)
  {
    if MakesAll(s.targets, f) {
      MakeAll(s, 0, f);
    } else {
      var k: nat :| k < f.targets && !Makes(s.targets, k, f);
      MakeFails(s, 0, f, k);
    }
  }

  lemma BeginStops(r: Life, f: Frame)
    requires |r.targets| == 3 && f.targets <= 2 && r.stage != Stopped
    ensures Begin(Result(r, true), f).stage == Stopped <==> f.selection == Raised || (f.selection == Accepted && !MakesAll(r.targets, f))
  {
    if f.selection == Accepted { MakingStops(Use(r, f), f); }
  }

  lemma PendingStops(s: Life, f: Frame)
    requires WellFormed(s) && s.made && s.pending && s.stage == Idle && f.targets <= 2 && f.ready && s.frame < f.frame && f.sameQueue
    ensures PrepareStep(s, f).stage == Stopped <==> Faults(s, f)
  {
    if AtFence(s, f) && f.reading.Reached? && f.reading.value >= s.retireFence {
      var seen := s.(log := s.log + [Seen(f.reading.value)]);
      if k: nat :| k < |s.targets| && s.targets[k] && !f.destroys(k) {
        DestroyFails(seen, 0, f.destroys, k);
      } else {
        DestroyAll(seen, 0, f.destroys);
        var r := Resized(DestroyFrom(seen, 0, f.destroys), f);
        assert r.life.targets == [false, false, false];
        BeginStops(r.life, f);
      }
    }
  }

  /** Preparing a frame stops the replay exactly for these causes. */
  lemma StopsIff(s: Life, f: Frame)
    requires WellFormed(s) && (!s.made ==> !s.pending && s.stage == Idle) && s.stage != Stopped && f.targets <= 2
    ensures PrepareStep(s, f).stage == Stopped <==> Faults(s, f)
  {
    if f.ready && (s.made ==> s.frame < f.frame) && s.stage != Recording && (if s.made then f.sameQueue else f.ownerMade && f.fenceMade) {
      if s.made && s.pending {
        PendingStops(s, f);
      } else if !s.made || (s.width == f.width && s.height == f.height) {
        BeginStops(if s.made then s else s.(made := true, width := f.width, height := f.height), f);
      }
    }
  }

  /** A Present that is to signal for a pending change. */
  predicate Due(s: Life, present: nat, onThread: bool)
  {
    s.made && s.pending && s.stage == Idle && s.retireFence == 0 && onThread && present > s.lastUse
  }

  /** What stops the replay in one call. */
  ghost predicate Breaks(s: Life, c: Call)
  {
    match c
    case Prepare(f) => Faults(s, f)
    case AfterPresent(present, onThread, signalled) => Due(s, present, onThread) && !signalled
    case Join(clean) => s.stage == Recording && !clean
    case LiveFailure => true
  }

  /** Before its owner is made the replay is idle. */
  predicate Early(s: Life) { !s.made ==> !s.pending && (s.stage == Idle || s.stage == Stopped) }

  predicate FewTargets(c: Call) { c.Prepare? ==> c.frame.targets <= 2 }

  lemma {:induction false} AlwaysEarly(run: seq<Entry>, n: nat)
    requires IsRun(run) && n <= |run|
    ensures Early(StateAt(run, n))
  {
    if n > 0 {
      AlwaysEarly(run, n - 1);
      assert Follows(run, n - 1);
      var s, c := run[n - 1].before, run[n - 1].call;
      if c.Prepare? && !s.made { StaysEarly(s, c.frame); }
      if c.Prepare? && s.made { StaysMade(s, c.frame); }
    }
  }

  lemma StaysMade(s: Life, f: Frame)
    requires s.made
    ensures PrepareStep(s, f).made
  {
    var b := if s.pending then s else s.(pending := true, stage := Idle);
    DestroyKeepsMade(b.(log := b.log + [Seen(if f.reading.Reached? then f.reading.value else 0)]), 0, f.destroys);
    var r := ResizeStep(s, f);
    if r.ok { MakeKeepsMade(Use(r.life, f), 0, f); }
  }

  lemma StaysEarly(s: Life, f: Frame)
    requires !s.made && Early(s)
    ensures Early(PrepareStep(s, f))
  {
    if f.ready && s.stage == Idle && f.ownerMade {
      MakeKeepsMade(Use(s.(made := true, width := f.width, height := f.height), f), 0, f);
    }
  }

  lemma {:induction false} DestroyKeepsMade(s: Life, i: nat, destroys: nat -> bool)
    requires i <= |s.targets|
    ensures DestroyFrom(s, i, destroys).life.made == s.made
    decreases |s.targets| - i
  {
    if i < |s.targets| {
      if !s.targets[i] {
        DestroyKeepsMade(s, i + 1, destroys);
      } else if destroys(i) {
        DestroyKeepsMade(s.(targets := s.targets[i := false], log := s.log + [Destroyed(i)]), i + 1, destroys);
      }
    }
  }

  lemma {:induction false} MakeKeepsMade(s: Life, i: nat, f: Frame)
    ensures MakeFrom(s, i, f).made == s.made
    decreases f.targets - i
  {
    if i < f.targets && i < |s.targets| && (s.targets[i] || f.creates(i)) && f.clears(i) {
      MakeKeepsMade(s.(targets := s.targets[i := true]), i + 1, f);
    }
  }

  ghost predicate Broken(run: seq<Entry>, n: nat)
    requires n <= |run|
  {
    exists m :: 0 <= m < n && Breaks(run[m].before, run[m].call)
  }

  lemma StepStops(s: Life, c: Call)
    requires WellFormed(s) && Early(s) && FewTargets(c)
    ensures Step(s, c).stage == Stopped <==> s.stage == Stopped || Breaks(s, c)
  {
    if c.Prepare? && s.stage != Stopped { StopsIff(s, c.frame); }
  }

  /** In every run, the replay is stopped exactly when some call has given a cause. */
  lemma {:induction false} StoppedIffBroken(run: seq<Entry>, n: nat)
    requires IsRun(run) && n <= |run| && forall i :: 0 <= i < |run| ==> FewTargets(run[i].call)
    ensures StateAt(run, n).stage == Stopped <==> Broken(run, n)
  {
    if n > 0 {
      var m := n - 1;
      StoppedIffBroken(run, m);
      AlwaysWellFormed(run, m);
      AlwaysEarly(run, m);
      assert Follows(run, m);
      StepStops(run[m].before, run[m].call);
      if Broken(run, m) {
        var k :| 0 <= k < m && Breaks(run[k].before, run[k].call);
        assert Broken(run, n);
      }
    }
  }
}
