/**
  What the frame coordinator does when nothing goes wrong, and exactly when it
  stops, recovers, selects a frame and resets its history
  (src/rr_frame_coordinator.h:21-81).
*/
module FrameProgress {
  import opened FrameCoordinator

  // --- Stopping ---

  /** The call breaks the protocol in this state. */
  predicate Offends(s: State, c: Call)
  {
    match c
    case Begin(k, requested, ready) => Abandons(s) || OutOfOrder(s, k, requested, ready)
    case FeatureResult(success, activeRR) => s.stage != Selected || (if success then activeRR != s.selected else s.selected)
    case HistoryResetResult(success) => !success || s.stage != Ready || s.selected || !s.historyDirty
    case BeginLighting(frame) => s.stage != Ready || !s.selected || frame != s.key.frame
    case BeginEvaluation(frame, guidesMatch, lightingComplete) =>
      s.stage != Lighting || !s.selected || frame != s.key.frame || !guidesMatch || !lightingComplete
    case EvaluationResult(success) => s.stage != Evaluating || !success
    case CompleteSR(success, frameMatches) =>
      s.stage != Ready || s.selected || !success || (s.recovering && (!frameMatches || s.historyDirty))
    case Fail(_) => true
  }

  /** A selected frame was created or lit, and is dropped; one that is merely ready is not lost for good. */
  predicate Abandons(s: State)
  {
    s.selected && (s.stage == Idle || s.stage == Selected || s.stage == Lighting || s.stage == Evaluating || (s.stage == Ready && s.stopped))
  }

  predicate OutOfOrder(s: State, k: Key, requested: bool, ready: bool)
  {
    (s.fixed.frame != 0 || (requested && ready)) && (k.frame == 0 || k.frame <= s.key.frame)
  }

  function ReasonOf(s: State, c: Call): StopReason
  {
    match c
    case Begin(_, _, _) => if Abandons(s) then AbandonedCommittedFrame else NonmonotonicFrame
    case CompleteSR(success, frameMatches) =>
      if s.stage != Ready || s.selected || !success then SrEvaluationFailed
      else if !frameMatches then RecoverySrFrameMismatch else RecoveryHistoryNotReset
    case Fail(reason) => reason
    case _ => ExplicitFailure
  }

  /** What one call does about stopping: `offends` with a reason, and otherwise `passes` or not. */
  predicate StopsRight(s: State, r: Result, offends: bool, reason: StopReason)
  {
    && (r.state.stopped <==> s.stopped || offends)
    && (!s.stopped && offends ==> r.state.stopReason == reason)
    && (s.stopped || !offends ==> r.state.stopReason == s.stopReason)
  }

  lemma ResizeStops(c: State, k: Key, usable: bool)
    ensures Resize(c, k, usable).stopped == c.stopped && Resize(c, k, usable).stopReason == c.stopReason
    ensures Resize(c, k, usable).selected ==> !c.stopped
  {
  }

  lemma AbandonStops(s: State)
    ensures StopsRight(s, Result(Abandon(s), true), Abandons(s), AbandonedCommittedFrame)
    ensures Abandon(s).fixed == s.fixed && Abandon(s).key == s.key
  {
  }

  lemma BeginStops(s: State, k: Key, requested: bool, ready: bool)
    ensures StopsRight(s, Step(s, Begin(k, requested, ready)), Offends(s, Begin(k, requested, ready)), ReasonOf(s, Begin(k, requested, ready)))
    ensures Offends(s, Begin(k, requested, ready)) ==> !Step(s, Begin(k, requested, ready)).ok
  {
    AbandonStops(s);
    ResizeStops(CheckOrder(Abandon(s), k, requested, ready), k, requested && ready && ExtentOk(k));
  }

  lemma CompleteStops(s: State, success: bool, frameMatches: bool)
    ensures StopsRight(s, CompleteSRStep(s, success, frameMatches), Offends(s, CompleteSR(success, frameMatches)), ReasonOf(s, CompleteSR(success, frameMatches)))
    ensures CompleteSRStep(s, success, frameMatches).ok <==> !Offends(s, CompleteSR(success, frameMatches))
  {
  }

  lemma FeatureStops(s: State, success: bool, activeRR: bool)
    ensures StopsRight(s, FeatureStep(s, success, activeRR), Offends(s, Call.FeatureResult(success, activeRR)), ExplicitFailure)
    ensures FeatureStep(s, success, activeRR).ok <==> success && !Offends(s, Call.FeatureResult(success, activeRR))
  {
  }

  /** A call stops the coordinator exactly when it offends, for the reason it offends; other calls report success. */
  lemma StepStops(s: State, c: Call)
    ensures StopsRight(s, Step(s, c), Offends(s, c), ReasonOf(s, c))
    ensures !c.Begin? ==> (Step(s, c).ok <==> !Offends(s, c) && !(c.FeatureResult? && !c.success))
    ensures Offends(s, c) ==> !Step(s, c).ok
  {
    match c
    case Begin(k, requested, ready) => BeginStops(s, k, requested, ready);
    case FeatureResult(success, activeRR) => FeatureStops(s, success, activeRR);
    case HistoryResetResult(_) =>
    case BeginLighting(_) =>
    case BeginEvaluation(_, _, _) =>
    case EvaluationResult(_) =>
    case CompleteSR(success, frameMatches) => CompleteStops(s, success, frameMatches);
    case Fail(_) =>
  }

  ghost predicate Offended(run: seq<Entry>, n: nat)
    requires n <= |run|
  {
    exists m :: 0 <= m < n && Offends(run[m].before, run[m].call)
  }

  /** Call `m` is the first that offends. */
  ghost predicate FirstOffence(run: seq<Entry>, m: nat)
  {
    m < |run| && Offends(run[m].before, run[m].call) && !Offended(run, m)
  }

  lemma OffendedNext(run: seq<Entry>, n: nat)
    requires n < |run|
    ensures Offended(run, n + 1) <==> Offended(run, n) || Offends(run[n].before, run[n].call)
  {
    if Offended(run, n) {
      var m :| 0 <= m < n && Offends(run[m].before, run[m].call);
      assert m < n + 1;
    }
  }

  /** In every run, the coordinator has stopped exactly when some call broke the protocol, and for the reason of the first that did. */
  lemma {:induction false} StoppedIffOffended(run: seq<Entry>, n: nat)
    requires IsRun(run) && n <= |run|
    ensures StateAt(run, n).stopped <==> Offended(run, n)
    ensures forall m: nat :: m < n && FirstOffence(run, m) ==> StateAt(run, n).stopReason == ReasonOf(run[m].before, run[m].call)
    ensures !Offended(run, n) ==> StateAt(run, n).stopReason == NotStopped
  {
    if n > 0 {
      var k := n - 1;
      StoppedIffOffended(run, k);
      OffendedNext(run, k);
      assert Follows(run, k);
      StepStops(run[k].before, run[k].call);
      forall m: nat | m < n && FirstOffence(run, m) ensures StateAt(run, n).stopReason == ReasonOf(run[m].before, run[m].call) {
        if m < k { assert Offended(run, k); }
      }
    }
  }

  // --- Recovery and selection ---

  /** An extent change or a frame abandoned at `Ready` has not been recovered from. */
  ghost predicate Disturbed(run: seq<Entry>, n: nat)
    requires n <= |run|
  {
    exists d :: 0 <= d < n && Disturbs(run[d]) && !Recovered(run, d, n)
  }

  lemma RecoverySteps(s: State, c: Call)
    requires Consistent(s)
    ensures var Result(t, ok) := Step(s, c);
            && (t.recovering ==> s.recovering || Disturbs(Entry(s, c, ok, t)))
            && (CleanSR(Entry(s, c, ok, t)) ==> !t.recovering)
  {
    match c
    case Begin(_, _, _) =>
    case FeatureResult(_, _) =>
    case HistoryResetResult(_) =>
    case BeginLighting(_) =>
    case BeginEvaluation(_, _, _) =>
    case EvaluationResult(_) =>
    case CompleteSR(_, _) =>
    case Fail(_) =>
  }

  lemma {:induction false} RecoveringMeans(run: seq<Entry>, n: nat) returns (d: nat)
    requires IsRun(run) && n <= |run| && StateAt(run, n).recovering
    ensures d < n && Disturbs(run[d]) && !Recovered(run, d, n)
  {
    var m := n - 1;
    assert Follows(run, m);
    AlwaysConsistent(run, m);
    RecoverySteps(run[m].before, run[m].call);
    assert run[m] == Entry(run[m].before, run[m].call, run[m].ok, run[m].after);
    if run[m].before.recovering {
      d := RecoveringMeans(run, m);
    } else {
      d := m;
    }
  }

  /** In every run, recovery goes on exactly while a disturbance is unrecovered and nothing broke the protocol. */
  lemma RecoveringIff(run: seq<Entry>, n: nat)
    requires IsRun(run) && n <= |run|
    ensures StateAt(run, n).recovering <==> Disturbed(run, n) && !Offended(run, n)
  {
    StoppedIffOffended(run, n);
    AlwaysConsistent(run, n);
    if StateAt(run, n).recovering {
      var d := RecoveringMeans(run, n);
    }
    if Disturbed(run, n) {
      var d :| 0 <= d < n && Disturbs(run[d]) && !Recovered(run, d, n);
      RecoveryHolds(run, d, n);
    }
  }

  /** From 64 to 8192 pixels either way, rendered no larger than shown. */
  predicate Usable(k: Key)
  {
    64 <= k.width <= k.outputWidth <= 8192 && 64 <= k.height <= k.outputHeight <= 8192
  }

  lemma BeginSelects(s: State, k: Key, requested: bool, ready: bool)
    ensures var Result(t, ok) := Step(s, Begin(k, requested, ready));
            ok == t.selected && (ok <==> requested && ready && ExtentOk(k) && !t.stopped && !t.recovering)
  {
    ResizeSelects(CheckOrder(Abandon(s), k, requested, ready), k, requested && ready && ExtentOk(k));
  }

  lemma ResizeSelects(c: State, k: Key, usable: bool)
    ensures var t := Resize(c, k, usable); t.selected <==> usable && !t.stopped && !t.recovering
  {
  }

  /**
    In every run, a frame is selected exactly when it is asked for, ready and of a
    usable extent, nothing has broken the protocol so far, this call included, and
    no disturbance, by this call either, is unrecovered.
  */
  lemma SelectedIff(run: seq<Entry>, i: nat)
    requires IsRun(run) && i < |run| && run[i].call.Begin?
    ensures run[i].ok <==> run[i].call.requested && run[i].call.ready && Usable(run[i].call.key) &&
                           !Offended(run, i + 1) && !Disturbed(run, i + 1)
  {
    assert Follows(run, i);
    BeginSelects(run[i].before, run[i].call.key, run[i].call.requested, run[i].call.ready);
    StoppedIffOffended(run, i + 1);
    RecoveringIff(run, i + 1);
  }

  // --- History ---

  /** Call `l` lets RR write the history, and no later call before `n` resets it. */
  predicate LeftDirty(run: seq<Entry>, l: nat, n: nat)
    requires n <= |run|
  {
    && l < n && run[l].call.BeginLighting? && run[l].ok
    && forall r :: l < r < n ==> !(run[r].call.HistoryResetResult? && run[r].ok)
  }

  /** What a `Begin` does to the flags that outlive a frame. */
  lemma BeginLeaves(s: State, k: Key, requested: bool, ready: bool)
    ensures var t := BeginStep(s, k, requested, ready);
            t.historyDirty == s.historyDirty && (t.resizing <==> s.resizing || (ExtentChanges(s, k) && !t.stopped))
  {
    AbandonStops(s);
    ResizeLeaves(CheckOrder(Abandon(s), k, requested, ready), k, requested && ready && ExtentOk(k));
  }

  lemma ResizeLeaves(c: State, k: Key, usable: bool)
    ensures var t := Resize(c, k, usable);
            t.historyDirty == c.historyDirty && t.stopped == c.stopped && (t.resizing <==> c.resizing || (ExtentChanges(c, k) && !c.stopped))
  {
  }

  lemma DirtySteps(s: State, c: Call)
    ensures var Result(t, ok) := Step(s, c);
            t.historyDirty <==> (c.BeginLighting? && ok) || (s.historyDirty && !(c.HistoryResetResult? && ok))
  {
    match c
    case Begin(k, requested, ready) => BeginLeaves(s, k, requested, ready);
    case FeatureResult(_, _) =>
    case HistoryResetResult(_) =>
    case BeginLighting(_) =>
    case BeginEvaluation(_, _, _) =>
    case EvaluationResult(_) =>
    case CompleteSR(_, _) =>
    case Fail(_) =>
  }

  /** In every run, the history counts as dirty exactly when lighting was begun since it was last reset. */
  lemma {:induction false} DirtyIff(run: seq<Entry>, n: nat)
    requires IsRun(run) && n <= |run|
    ensures StateAt(run, n).historyDirty <==> exists l: nat :: LeftDirty(run, l, n)
  {
    if n > 0 {
      var m := n - 1;
      DirtyIff(run, m);
      assert Follows(run, m);
      DirtySteps(run[m].before, run[m].call);
      if StateAt(run, n).historyDirty {
        if run[m].call.BeginLighting? && run[m].ok {
          assert LeftDirty(run, m, n);
        } else {
          var l: nat :| LeftDirty(run, l, m);
          assert LeftDirty(run, l, n);
        }
      }
      if l: nat :| LeftDirty(run, l, n) {
        if l < m { assert LeftDirty(run, l, m); }
      }
    }
  }

  /** A frame of another extent is begun by a coordinator that goes on. */
  predicate Resizes(e: Entry) { e.call.Begin? && ExtentChanges(e.before, e.call.key) && !e.after.stopped }

  predicate Creates(e: Entry) { e.call.FeatureResult? && e.ok && e.before.selected }

  predicate LeftResizing(run: seq<Entry>, b: nat, n: nat)
    requires n <= |run|
  {
    b < n && Resizes(run[b]) && forall f :: b < f < n ==> !Creates(run[f])
  }

  lemma ResizeSteps(s: State, c: Call)
    ensures var Result(t, ok) := Step(s, c);
            t.resizing <==> Resizes(Entry(s, c, ok, t)) || (s.resizing && !Creates(Entry(s, c, ok, t)))
  {
    match c
    case Begin(k, requested, ready) => BeginLeaves(s, k, requested, ready);
    case FeatureResult(_, _) =>
    case HistoryResetResult(_) =>
    case BeginLighting(_) =>
    case BeginEvaluation(_, _, _) =>
    case EvaluationResult(_) =>
    case CompleteSR(_, _) =>
    case Fail(_) =>
  }

  /** In every run, a resize goes on from a change of extent until an RR feature is created. */
  lemma {:induction false} ResizingIff(run: seq<Entry>, n: nat)
    requires IsRun(run) && n <= |run|
    ensures StateAt(run, n).resizing <==> exists b: nat :: LeftResizing(run, b, n)
  {
    if n > 0 {
      var m := n - 1;
      ResizingIff(run, m);
      assert Follows(run, m);
      ResizeSteps(run[m].before, run[m].call);
      assert run[m] == Entry(run[m].before, run[m].call, run[m].ok, run[m].after);
      if StateAt(run, n).resizing {
        if Resizes(run[m]) {
          assert LeftResizing(run, m, n);
        } else {
          var b: nat :| LeftResizing(run, b, m);
          assert LeftResizing(run, b, n);
        }
      }
      if b: nat :| LeftResizing(run, b, n) {
        if b < m { assert LeftResizing(run, b, m); }
      }
    }
  }

  /** A frame in use: it was selected by a coordinator that goes on, and its extent is fixed once it was created. */
  predicate InUse(s: State)
  {
    && (s.selected && s.stage != Failed ==> !s.stopped)
    && (s.selected && !s.stopped && s.stage != Selected ==> s.fixed == s.key)
  }

  /** Nothing so far asks for a reset: the extent that was fixed last is that of the frame. */
  predicate Carries(s: State) { !s.reset && s.fixed.frame != 0 && SameExtent(s.key, s.fixed) }

  lemma UseSteps(s: State, c: Call)
    requires Consistent(s) && InUse(s)
    ensures InUse(Step(s, c).state)
  {
    match c
    case Begin(k, requested, ready) => BeginSelects(s, k, requested, ready); BeginConsistent(s, k, requested, ready);
    case FeatureResult(_, _) =>
    case HistoryResetResult(_) =>
    case BeginLighting(_) =>
    case BeginEvaluation(_, _, _) =>
    case EvaluationResult(_) =>
    case CompleteSR(_, _) =>
    case Fail(_) =>
  }

  /** What other calls do to a selected frame that has not failed. */
  lemma CarrySteps(s: State, c: Call)
    requires Consistent(s) && InUse(s) && !c.Begin? && s.selected
    ensures var Result(t, ok) := Step(s, c);
            && t.key == s.key && t.selected
            && (Carries(s) ==> Carries(t))
            && (s.stage == Complete ==> t.stopped || (t.stage == Complete && t.fixed == s.fixed))
            && (c.EvaluationResult? && ok ==> t.stage == Complete && !t.stopped)
  {
    match c
    case FeatureResult(_, _) =>
    case HistoryResetResult(_) =>
    case BeginLighting(_) =>
    case BeginEvaluation(_, _, _) =>
    case EvaluationResult(_) =>
    case CompleteSR(_, _) =>
    case Fail(_) =>
  }

  /** A frame begun right after a completed one of the same extent and effects starts without a reset. */
  lemma BeginCarries(s: State, k: Key, requested: bool, ready: bool)
    requires Consistent(s) && s.selected && s.stage == Complete && s.fixed == s.key
    requires SameExtent(k, s.key) && k.rtEffects == s.key.rtEffects
    ensures var t := Step(s, Begin(k, requested, ready)).state; t.selected ==> Carries(t)
  {
  }

  ghost predicate Kept(run: seq<Entry>, n: nat, s: State)
    requires n <= |run|
  {
    var i := LastBegin(run, n);
    && (i >= 0 && EverCompletesRR(run, i, n) ==> s.stopped || (s.selected && s.stage == Complete && s.fixed == s.key))
    && (i >= 0 && CarriesOn(run, i) && s.selected ==> Carries(s))
  }

  lemma KeptBegin(run: seq<Entry>, n: nat)
    requires IsRun(run) && n < |run| && run[n].call.Begin? && Kept(run, n, run[n].before)
    requires Explained(run, n, run[n].before) && Consistent(run[n].before) && InUse(run[n].before)
    ensures Kept(run, n + 1, run[n].after)
  {
    assert Follows(run, n);
    assert LastBegin(run, n + 1) == n;
    var s, k := run[n].before, run[n].call.key;
    BeginSelects(s, k, run[n].call.requested, run[n].call.ready);
    StepStops(s, run[n].call);
    if CarriesOn(run, n) && run[n].after.selected {
      BeginCarries(s, k, run[n].call.requested, run[n].call.ready);
    }
  }

  lemma KeptOther(run: seq<Entry>, n: nat)
    requires IsRun(run) && n < |run| && !run[n].call.Begin? && Kept(run, n, run[n].before)
    requires Consistent(run[n].before) && InUse(run[n].before)
    ensures Kept(run, n + 1, run[n].after)
  {
    assert Follows(run, n);
    var s, t, i := run[n].before, run[n].after, LastBegin(run, n);
    assert LastBegin(run, n + 1) == i;
    OtherCalls(s, run[n].call);
    StepStops(s, run[n].call);
    UseSteps(s, run[n].call);
    if s.selected { CarrySteps(s, run[n].call); }
    if i >= 0 && EverCompletesRR(run, i, n + 1) && !t.stopped {
      var c :| 0 <= c < n + 1 && CompletesRR(run, i, c);
      if c < n { assert EverCompletesRR(run, i, n); }
    }
  }

  lemma {:induction false} AlwaysKept(run: seq<Entry>, n: nat)
    requires IsRun(run) && n <= |run|
    ensures Kept(run, n, StateAt(run, n)) && InUse(StateAt(run, n))
  {
    if n > 0 {
      var m := n - 1;
      AlwaysKept(run, m);
      AlwaysConsistent(run, m);
      AlwaysExplained(run, m);
      assert Follows(run, m);
      UseSteps(run[m].before, run[m].call);
      if run[m].call.Begin? { KeptBegin(run, m); } else { KeptOther(run, m); }
    }
  }

  /**
    In every run, a frame that completes RR evaluation does so without a reset
    exactly when it was begun right after a frame that itself completed RR
    evaluation, at the same extent and effects.
  */
  lemma ResetIff(run: seq<Entry>, i: int, c: nat)
    requires IsRun(run) && c < |run| && CompletesRR(run, i, c)
    ensures run[c].after.reset <==> !CarriesOn(run, i)
  {
    AlwaysKept(run, c);
    AlwaysConsistent(run, c);
    assert Follows(run, c);
    if CarriesOn(run, i) { CarrySteps(run[c].before, run[c].call); }
    if !run[c].after.reset { HistoryTrusted(run, i, c); }
  }

  /** The history of the frame under way was reset for super resolution. */
  predicate CleanedSince(run: seq<Entry>, h: nat, n: nat)
    requires n <= |run|
  {
    LastBegin(run, n) < h < n && run[h].call.HistoryResetResult? && run[h].ok
  }

  ghost predicate Cleaned(run: seq<Entry>, n: nat)
    requires n <= |run|
  {
    exists h: nat :: CleanedSince(run, h, n)
  }

  lemma CleanSteps(s: State, c: Call)
    requires !s.selected && !c.Begin?
    ensures var Result(t, ok) := Step(s, c); !t.selected && (t.reset <==> s.reset || (c.HistoryResetResult? && ok))
  {
    match c
    case FeatureResult(_, _) =>
    case HistoryResetResult(_) =>
    case BeginLighting(_) =>
    case BeginEvaluation(_, _, _) =>
    case EvaluationResult(_) =>
    case CompleteSR(_, _) =>
    case Fail(_) =>
  }

  /** In every run, a frame that is not selected has its reset set exactly when its history was reset since it was begun. */
  lemma {:induction false} CleanedIff(run: seq<Entry>, n: nat)
    requires IsRun(run) && n <= |run|
    ensures !StateAt(run, n).selected ==> (StateAt(run, n).reset <==> Cleaned(run, n))
  {
    if n > 0 {
      var m := n - 1;
      CleanedIff(run, m);
      assert Follows(run, m);
      if run[m].call.Begin? {
        assert LastBegin(run, n) == m;
        BeginSelects(run[m].before, run[m].call.key, run[m].call.requested, run[m].call.ready);
      } else {
        assert LastBegin(run, n) == LastBegin(run, m);
        OtherCalls(run[m].before, run[m].call);
        if !run[m].before.selected { CleanStep(run, m); }
      }
    }
  }

  lemma CleanStep(run: seq<Entry>, m: nat)
    requires IsRun(run) && m < |run| && !run[m].call.Begin? && !run[m].before.selected && LastBegin(run, m + 1) == LastBegin(run, m)
    requires run[m].before.reset <==> Cleaned(run, m)
    ensures run[m].after.reset <==> Cleaned(run, m + 1)
  {
    assert Follows(run, m);
    CleanSteps(run[m].before, run[m].call);
    if run[m].after.reset {
      if run[m].before.reset {
        var h: nat :| CleanedSince(run, h, m);
        assert CleanedSince(run, h, m + 1);
      } else {
        assert CleanedSince(run, m, m + 1);
      }
    }
    if Cleaned(run, m + 1) {
      var h: nat :| CleanedSince(run, h, m + 1);
      if h < m { assert CleanedSince(run, h, m); }
    }
  }

  // --- When nothing goes wrong ---

  /** A frame whose super-resolution feature could not be made is over, without a fault. */
  lemma FeatureMissing(s: State, activeRR: bool)
    requires s.stage == Selected && !s.selected
    ensures Step(s, Call.FeatureResult(false, activeRR)) == Result(s.(stage := Complete), false)
  {
  }

  function Then(r: Result, c: Call): Result
  {
    Result(Step(r.state, c).state, r.ok && Step(r.state, c).ok)
  }

  /** All the calls of one RR frame, each reporting success. */
  function RRFrame(s: State, k: Key): Result
  {
    Then(Then(Then(Then(Then(Result(s, true), Begin(k, true, true)), Call.FeatureResult(true, true)), Call.BeginLighting(k.frame)),
              Call.BeginEvaluation(k.frame, true, true)), Call.EvaluationResult(true))
  }

  /** The coordinator goes on and no frame is under way. */
  predicate Between(s: State)
  {
    Consistent(s) && InUse(s) && !s.stopped && (s.stage == Idle || s.stage == Complete)
  }

  /** An RR frame of the same extent completes; it resets its history unless the frame before used RR with the same effects. */
  lemma FrameCompletes(s: State, k: Key)
    requires Between(s) && !s.recovering && s.key.frame < k.frame && ExtentOk(k) && (s.key.frame != 0 ==> SameExtent(k, s.key))
    ensures var reset := !s.selected || k.rtEffects != s.key.rtEffects;
            s.selected ==> RRFrame(s, k) == Result(State(k, k, Complete, true, false, true, reset, false, false, s.stopReason), true)
    ensures RRFrame(s, k).ok && RRFrame(s, k).state.selected && RRFrame(s, k).state.stage == Complete && RRFrame(s, k).state.key == k
    ensures Between(RRFrame(s, k).state) && !RRFrame(s, k).state.recovering && (!s.selected ==> RRFrame(s, k).state.reset)
  {
    var begun := Step(s, Begin(k, true, true));
    assert begun.ok && begun.state == s.(key := k, stage := Selected, selected := true, reset := !s.selected || k.rtEffects != s.key.rtEffects);
  }

  function Rendered(keys: seq<Key>, n: nat): Result
    requires n <= |keys|
  {
    if n == 0 then Result(INITIAL, true)
    else Result(RRFrame(Rendered(keys, n - 1).state, keys[n - 1]).state,
                Rendered(keys, n - 1).ok && RRFrame(Rendered(keys, n - 1).state, keys[n - 1]).ok)
  }

  /** Usable keys of one extent in increasing order. */
  predicate Steady(keys: seq<Key>)
  {
    forall i :: 0 <= i < |keys| ==>
      ExtentOk(keys[i]) && SameExtent(keys[i], keys[0]) && (if i == 0 then 0 else keys[i - 1].frame) < keys[i].frame
  }

  /** The last of `n` frames completed, and reset its history if it was the first or changed the effects. */
  predicate Steadily(r: Result, keys: seq<Key>, n: nat)
    requires n <= |keys|
  {
    && r.ok && Between(r.state) && !r.state.recovering
    && if n == 0 then r.state == INITIAL
       else
         && r.state.selected && r.state.stage == Complete && r.state.key == keys[n - 1]
         && (r.state.reset <==> n == 1 || keys[n - 1].rtEffects != keys[n - 2].rtEffects)
  }

  lemma NextSteady(r: Result, keys: seq<Key>, n: nat)
    requires Steady(keys) && n < |keys| && Steadily(r, keys, n)
    ensures Steadily(RRFrame(r.state, keys[n]), keys, n + 1)
  {
    assert ExtentOk(keys[n]) && SameExtent(keys[n], keys[0]) && (if n == 0 then 0 else keys[n - 1].frame) < keys[n].frame;
    if n > 0 { assert SameExtent(keys[n - 1], keys[0]); }
    FrameCompletes(r.state, keys[n]);
  }

  /** Any number of RR frames of one extent complete; only the first, and those that change the effects, reset their history. */
  lemma {:induction false} SteadyFrames(keys: seq<Key>, n: nat)
    requires Steady(keys) && n <= |keys|
    ensures Steadily(Rendered(keys, n), keys, n)
  {
    if n > 0 {
      SteadyFrames(keys, n - 1);
      NextSteady(Rendered(keys, n - 1), keys, n - 1);
    }
  }

  /** The calls of a super-resolution frame once it was begun, each reporting success. */
  function SRRest(begun: State): Result
  {
    var made := Step(begun, Call.FeatureResult(true, false));
    Then(if made.state.historyDirty then Then(made, Call.HistoryResetResult(true)) else made, Call.CompleteSR(true, true))
  }

  /** All the calls of one super-resolution frame. */
  function SRFrame(s: State, k: Key, requested: bool, ready: bool): Result
  {
    SRRest(Step(s, Begin(k, requested, ready)).state)
  }

  predicate CompletedClean(r: Result, k: Key)
  {
    r.ok && Between(r.state) && r.state.stage == Complete && r.state.key == k && !r.state.selected && !r.state.recovering && !r.state.historyDirty
  }

  lemma SRRestCompletes(begun: State)
    requires begun.stage == Selected && !begun.selected && !begun.stopped
    ensures CompletedClean(SRRest(begun), begun.key)
  {
  }

  /**
    A frame that is not selected completes by super resolution, from wherever the
    frame before can be left, and ends recovery with a clean history.
  */
  lemma SuperResolutionCompletes(s: State, k: Key, requested: bool, ready: bool)
    requires Between(s) || (Consistent(s) && InUse(s) && !s.stopped && s.stage == Ready && s.selected)
    requires s.key.frame < k.frame && !Step(s, Begin(k, requested, ready)).ok
    ensures CompletedClean(SRFrame(s, k, requested, ready), k)
  {
    BeginSelects(s, k, requested, ready);
    StepStops(s, Begin(k, requested, ready));
    BeginConsistent(s, k, requested, ready);
    SRRestCompletes(Step(s, Begin(k, requested, ready)).state);
  }
}
