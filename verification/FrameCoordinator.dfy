/**
  The Ray Reconstruction frame coordinator (src/rr_frame_coordinator.h).

  The class keeps the source's fields and methods.  `Step` gives the same
  behaviour on values, so that runs of calls can be reasoned about: `After` is the
  state after the first calls of a run, and the theorems quantify over all runs.
*/
module FrameCoordinator {

  datatype Key = Key(frame: nat, outputWidth: nat, outputHeight: nat, width: nat, height: nat, rtEffects: nat)

  datatype Stage = Idle | Selected | Ready | Lighting | Evaluating | Complete | Failed

  // The source's reason strings, one constructor each; callers may pass their own.
  datatype StopReason =
    | NotStopped | ExplicitFailure | AbandonedCommittedFrame | NonmonotonicFrame | SrEvaluationFailed
    | RecoverySrFrameMismatch | RecoveryHistoryNotReset | Other(code: nat)

  const NO_KEY := Key(0, 0, 0, 0, 0, 0)

  predicate SameExtent(a: Key, b: Key)
  {
    a.outputWidth == b.outputWidth && a.outputHeight == b.outputHeight && a.width == b.width && a.height == b.height
  }

  predicate ExtentOk(key: Key)
  {
    && 64 <= key.width <= 8192 && 64 <= key.height <= 8192
    && key.width <= key.outputWidth <= 8192 && key.height <= key.outputHeight <= 8192
  }

  datatype State = State(
    key: Key, fixed: Key, stage: Stage, selected: bool, stopped: bool, historyDirty: bool, reset: bool,
    recovering: bool, resizing: bool, stopReason: StopReason)

  /** The state after a call and what it returns. */
  datatype Result = Result(state: State, ok: bool)

  const INITIAL := State(NO_KEY, NO_KEY, Idle, false, false, false, false, false, false, NotStopped)

  class RRFrameCoordinator {
    var key: Key
    var fixed: Key
    var stage: Stage
    var selected: bool
    var stopped: bool
    var historyDirty: bool
    var reset: bool
    var recovering: bool
    var resizing: bool
    var stopReason: StopReason

    ghost function Abstract(): State
      reads this
    {
      State(key, fixed, stage, selected, stopped, historyDirty, reset, recovering, resizing, stopReason)
    }

    constructor ()
      ensures Abstract() == INITIAL
    {
      key, fixed, stage := NO_KEY, NO_KEY, Idle;
      selected, stopped, historyDirty, reset, recovering, resizing := false, false, false, false, false, false;
      stopReason := NotStopped;
    }

    method Fail(reason: StopReason) returns (ok: bool)
      modifies this
      ensures !ok && Abstract() == FailStep(old(Abstract()), reason)
    {
      if !stopped { stopReason := reason; }
      stopped := true;
      recovering := false;
      stage := Failed;
      return false;
    }

    /** The first check of `Begin`: the frame before was neither completed nor failed. */
    method AbandonFrame()
      modifies this
      ensures Abstract() == Abandon(old(Abstract()))
    {
      if selected && stage != Complete && stage != Failed {
        if stage == Ready && !stopped {
          recovering := true;
        } else {
          var _ := Fail(AbandonedCommittedFrame);
        }
      }
    }

    /** The second check of `Begin`: frame numbers must grow once RR was in use or is asked for. */
    method CheckFrame(k: Key, requested: bool, ready: bool)
      modifies this
      ensures Abstract() == CheckOrder(old(Abstract()), k, requested, ready)
    {
      if (fixed.frame != 0 || (requested && ready)) && (k.frame == 0 || k.frame <= key.frame) {
        var _ := Fail(NonmonotonicFrame);
      }
    }

    method Begin(k: Key, requested: bool, ready: bool) returns (ok: bool)
      modifies this
      ensures Abstract() == BeginStep(old(Abstract()), k, requested, ready) && ok == selected
    {
      AbandonFrame();
      CheckFrame(k, requested, ready);
      SelectFrame(k, requested && ready && ExtentOk(k));
      return selected;
    }

    /** The rest of `Begin`: an extent change starts recovery, and only then is the frame selected. */
    method SelectFrame(k: Key, usable: bool)
      modifies this
      ensures Abstract() == Resize(old(Abstract()), k, usable)
    {
      var previousRR := selected;
      var effectsChanged := key.frame != 0 && k.rtEffects != key.rtEffects;
      var changed := key.frame != 0 && !SameExtent(k, key);
      key := k;
      reset := false;
      if changed && !stopped { recovering, resizing := true, true; }
      selected := usable && !stopped && !recovering;
      reset := selected && (!previousRR || effectsChanged);
      stage := Selected;
    }

    method FeatureResult(success: bool, activeRR: bool) returns (ok: bool)
      modifies this
      ensures Result(Abstract(), ok) == FeatureStep(old(Abstract()), success, activeRR)
    {
      if stage != Selected {
        ok := Fail(ExplicitFailure);
        return;
      }
      if !success && !selected {
        stage := Complete;
        return false;
      }
      if !success || activeRR != selected {
        ok := Fail(ExplicitFailure);
        return;
      }
      stage := Ready;
      if selected {
        if fixed.frame == 0 || !SameExtent(key, fixed) { reset := true; }
        fixed := key;
        resizing := false;
      }
      return true;
    }

    predicate NeedsHistoryReset()
      reads this
    {
      historyDirty && !selected
    }

    method HistoryResetResult(success: bool) returns (ok: bool)
      modifies this
      ensures Result(Abstract(), ok) == HistoryStep(old(Abstract()), success)
    {
      if stage != Ready || !NeedsHistoryReset() || !success {
        ok := Fail(ExplicitFailure);
        return;
      }
      historyDirty := false;
      reset := true;
      return true;
    }

    method BeginLighting(frame: nat) returns (ok: bool)
      modifies this
      ensures Result(Abstract(), ok) == LightingStep(old(Abstract()), frame)
    {
      if !selected || stage != Ready || key.frame != frame {
        ok := Fail(ExplicitFailure);
        return;
      }
      historyDirty := true;
      stage := Lighting;
      return true;
    }

    method BeginEvaluation(frame: nat, guidesMatch: bool, lightingComplete: bool) returns (ok: bool)
      modifies this
      ensures Result(Abstract(), ok) == EvaluationStep(old(Abstract()), frame, guidesMatch, lightingComplete)
    {
      if !selected || stage != Lighting || frame != key.frame || !guidesMatch || !lightingComplete {
        ok := Fail(ExplicitFailure);
        return;
      }
      stage := Evaluating;
      return true;
    }

    method EvaluationResult(success: bool) returns (ok: bool)
      modifies this
      ensures Result(Abstract(), ok) == ResultStep(old(Abstract()), success)
    {
      if stage != Evaluating || !success {
        ok := Fail(ExplicitFailure);
        return;
      }
      stage := Complete;
      return true;
    }

    method CompleteSR(success: bool, frameMatches: bool) returns (ok: bool)
      modifies this
      ensures Result(Abstract(), ok) == CompleteSRStep(old(Abstract()), success, frameMatches)
    {
      if selected || stage != Ready || !success {
        ok := Fail(SrEvaluationFailed);
        return;
      }
      if recovering && !frameMatches {
        ok := Fail(RecoverySrFrameMismatch);
        return;
      }
      if recovering && historyDirty {
        ok := Fail(RecoveryHistoryNotReset);
        return;
      }
      stage := Complete;
      recovering := false;
      return true;
    }
  }

  // --- The calls on values ---

  function FailStep(s: State, reason: StopReason): State
  {
    s.(stopReason := if s.stopped then s.stopReason else reason, stopped := true, recovering := false, stage := Failed)
  }

  /** What becomes of an RR frame that was begun but neither completed nor failed. */
  function Abandon(s: State): State
  {
    if !(s.selected && s.stage != Complete && s.stage != Failed) then s
    else if s.stage == Ready && !s.stopped then s.(recovering := true)
    else FailStep(s, AbandonedCommittedFrame)
  }

  function CheckOrder(s: State, k: Key, requested: bool, ready: bool): State
  {
    if (s.fixed.frame != 0 || (requested && ready)) && (k.frame == 0 || k.frame <= s.key.frame)
    then FailStep(s, NonmonotonicFrame) else s
  }

  predicate ExtentChanges(s: State, k: Key) { s.key.frame != 0 && !SameExtent(k, s.key) }

  function BeginStep(s: State, k: Key, requested: bool, ready: bool): State
  {
    Resize(CheckOrder(Abandon(s), k, requested, ready), k, requested && ready && ExtentOk(k))
  }

  /** An extent change starts recovery, unless the coordinator has stopped. */
  function Resize(c: State, k: Key, usable: bool): State
  {
    if ExtentChanges(c, k) && !c.stopped then Select(c.(recovering := true, resizing := true), k, usable)
    else Select(c, k, usable)
  }

  function Select(c: State, k: Key, usable: bool): State
  {
    Reset(c.(key := k, stage := Selected, selected := usable && !c.stopped && !c.recovering),
          !c.selected || (c.key.frame != 0 && k.rtEffects != c.key.rtEffects))
  }

  function Reset(t: State, anew: bool): State { t.(reset := t.selected && anew) }

  function FeatureStep(s: State, success: bool, activeRR: bool): Result
  {
    if s.stage != Selected then Result(FailStep(s, ExplicitFailure), false)
    else if !success && !s.selected then Result(s.(stage := Complete), false)
    else if !success || activeRR != s.selected then Result(FailStep(s, ExplicitFailure), false)
    else if !s.selected then Result(s.(stage := Ready), true)
    else Result(s.(stage := Ready, fixed := s.key, resizing := false,
             reset := s.reset || s.fixed.frame == 0 || !SameExtent(s.key, s.fixed)), true)
  }

  function HistoryStep(s: State, success: bool): Result
  {
    if s.stage != Ready || !(s.historyDirty && !s.selected) || !success then Result(FailStep(s, ExplicitFailure), false)
    else Result(s.(historyDirty := false, reset := true), true)
  }

  function LightingStep(s: State, frame: nat): Result
  {
    if !s.selected || s.stage != Ready || s.key.frame != frame then Result(FailStep(s, ExplicitFailure), false)
    else Result(s.(historyDirty := true, stage := Lighting), true)
  }

  function EvaluationStep(s: State, frame: nat, guidesMatch: bool, lightingComplete: bool): Result
  {
    if !s.selected || s.stage != Lighting || frame != s.key.frame || !guidesMatch || !lightingComplete
    then Result(FailStep(s, ExplicitFailure), false)
    else Result(s.(stage := Evaluating), true)
  }

  function ResultStep(s: State, success: bool): Result
  {
    if s.stage != Evaluating || !success then Result(FailStep(s, ExplicitFailure), false)
    else Result(s.(stage := Complete), true)
  }

  function CompleteSRStep(s: State, success: bool, frameMatches: bool): Result
  {
    if s.selected || s.stage != Ready || !success then Result(FailStep(s, SrEvaluationFailed), false)
    else if s.recovering && !frameMatches then Result(FailStep(s, RecoverySrFrameMismatch), false)
    else if s.recovering && s.historyDirty then Result(FailStep(s, RecoveryHistoryNotReset), false)
    else Result(s.(stage := Complete, recovering := false), true)
  }

  datatype Call =
    | Begin(key: Key, requested: bool, ready: bool)
    | FeatureResult(success: bool, activeRR: bool)
    | HistoryResetResult(success: bool)
    | BeginLighting(frame: nat)
    | BeginEvaluation(frame: nat, guidesMatch: bool, lightingComplete: bool)
    | EvaluationResult(success: bool)
    | CompleteSR(success: bool, frameMatches: bool)
    | Fail(reason: StopReason)

  /** `Begin` returns whether the frame is selected. */
  function Returned(t: State): Result { Result(t, t.selected) }

  function Step(s: State, call: Call): Result
  {
    match call
    case Begin(k, requested, ready) => Returned(BeginStep(s, k, requested, ready))
    case FeatureResult(success, activeRR) => FeatureStep(s, success, activeRR)
    case HistoryResetResult(success) => HistoryStep(s, success)
    case BeginLighting(frame) => LightingStep(s, frame)
    case BeginEvaluation(frame, guidesMatch, lightingComplete) => EvaluationStep(s, frame, guidesMatch, lightingComplete)
    case EvaluationResult(success) => ResultStep(s, success)
    case CompleteSR(success, frameMatches) => CompleteSRStep(s, success, frameMatches)
    case Fail(reason) => Result(FailStep(s, reason), false)
  }

  // --- Runs ---

  // One call of a run, with the states around it and the value it returned.
  datatype Entry = Entry(before: State, call: Call, ok: bool, after: State)

  predicate FollowsBy(run: seq<Entry>, n: nat, step: (State, Call) -> Result)
    requires n < |run|
  {
    && run[n].before == (if n == 0 then INITIAL else run[n - 1].after)
    && Result(run[n].after, run[n].ok) == step(run[n].before, run[n].call)
  }

  predicate Follows(run: seq<Entry>, n: nat)
    requires n < |run|
  {
    FollowsBy(run, n, Step)
  }

  /** Any sequence of calls on a fresh coordinator, with what it did. */
  predicate IsRun(run: seq<Entry>)
  {
    forall n :: 0 <= n < |run| ==> Follows(run, n)
  }

  /** The state after `n` calls. */
  function StateAt(run: seq<Entry>, n: nat): State
    requires n <= |run|
  {
    if n == 0 then INITIAL else run[n - 1].after
  }

  /** The latest frame begun among the first `n` calls; -1 when there is none. */
  function LastBegin(run: seq<Entry>, n: nat): (i: int)
    requires n <= |run|
    ensures -1 <= i < n && (i >= 0 ==> run[i].call.Begin?)
    ensures forall k :: i < k < n ==> !run[k].call.Begin?
  {
    if n == 0 then -1 else if run[n - 1].call.Begin? then n - 1 else LastBegin(run, n - 1)
  }

  /** The frame begun by call `i` completes its RR evaluation with call `c`. */
  predicate CompletesRR(run: seq<Entry>, i: int, c: nat)
    requires c < |run|
  {
    0 <= i < c && LastBegin(run, c) == i && run[c].call.EvaluationResult? && run[c].ok
  }

  ghost predicate EverCompletesRR(run: seq<Entry>, i: int, n: nat)
    requires n <= |run|
  {
    exists c :: 0 <= c < n && CompletesRR(run, i, c)
  }

  /** The frame begun by call `i` carries on the RR history of the frame begun before it. */
  ghost predicate CarriesOn(run: seq<Entry>, i: int)
    requires 0 <= i < |run| && run[i].call.Begin?
  {
    var p := LastBegin(run, i);
    && EverCompletesRR(run, p, i) && p >= 0
    && SameExtent(run[i].call.key, run[p].call.key)
    && run[i].call.key.rtEffects == run[p].call.key.rtEffects
  }

  // What a state says about itself, whatever the run.
  predicate Consistent(s: State)
  {
    && (s.stage == Failed ==> s.stopped)
    && (s.selected ==> s.key.frame != 0 && s.stage != Idle)
    && (s.stage == Lighting || s.stage == Evaluating ==> s.selected)
    && (s.recovering ==> !s.selected && !s.stopped)
  }

  lemma CheckedOrder(s: State, k: Key, requested: bool, ready: bool)
    requires Consistent(s)
    ensures var c := CheckOrder(Abandon(s), k, requested, ready);
            && (c.recovering ==> !c.stopped)
            && (requested && ready && !c.stopped ==> k.frame != 0)
  {
  }

  lemma ResizeConsistent(c: State, k: Key, usable: bool)
    requires c.recovering ==> !c.stopped
    requires usable && !c.stopped ==> k.frame != 0
    ensures Consistent(Resize(c, k, usable)) && Resize(c, k, usable).stage == Selected && Resize(c, k, usable).key == k
  {
  }

  lemma BeginConsistent(s: State, k: Key, requested: bool, ready: bool)
    requires Consistent(s)
    ensures Consistent(BeginStep(s, k, requested, ready))
    ensures BeginStep(s, k, requested, ready).stage == Selected && BeginStep(s, k, requested, ready).key == k
  {
    CheckedOrder(s, k, requested, ready);
    ResizeConsistent(CheckOrder(Abandon(s), k, requested, ready), k, requested && ready && ExtentOk(k));
  }

  lemma FailConsistent(s: State, reason: StopReason)
    requires Consistent(s)
    ensures Consistent(FailStep(s, reason))
  {
  }

  lemma FeatureConsistent(s: State, success: bool, activeRR: bool)
    requires Consistent(s)
    ensures Consistent(FeatureStep(s, success, activeRR).state)
  {
    FailConsistent(s, ExplicitFailure);
  }

  lemma LightingConsistent(s: State, frame: nat)
    requires Consistent(s)
    ensures Consistent(LightingStep(s, frame).state)
  {
    FailConsistent(s, ExplicitFailure);
  }

  lemma CompleteConsistent(s: State, success: bool, frameMatches: bool)
    requires Consistent(s)
    ensures Consistent(CompleteSRStep(s, success, frameMatches).state)
  {
  }

  lemma StepConsistent(s: State, c: Call)
    requires Consistent(s)
    ensures Consistent(Step(s, c).state)
  {
    match c
    case Begin(k, requested, ready) => BeginConsistent(s, k, requested, ready);
    case FeatureResult(success, activeRR) => FeatureConsistent(s, success, activeRR);
    case HistoryResetResult(_) =>
    case BeginLighting(frame) => LightingConsistent(s, frame);
    case BeginEvaluation(_, _, _) =>
    case EvaluationResult(_) =>
    case CompleteSR(success, frameMatches) => CompleteConsistent(s, success, frameMatches);
    case Fail(reason) => FailConsistent(s, reason);
  }

  /** What holds after `m` calls, and after a call whenever it held before, holds from there on. */
  lemma {:induction false} HoldsOn(run: seq<Entry>, m: nat, n: nat, step: (State, Call) -> Result, holds: State -> bool)
    requires m <= n <= |run| && forall k :: m <= k < n ==> FollowsBy(run, k, step)
    requires holds(StateAt(run, m)) && forall s, c :: holds(s) ==> holds(step(s, c).state)
    ensures holds(StateAt(run, n))
  {
    if m < n {
      HoldsOn(run, m, n - 1, step, holds);
      assert FollowsBy(run, n - 1, step);
      assert holds(step(run[n - 1].before, run[n - 1].call).state);
    }
  }

  lemma AlwaysConsistent(run: seq<Entry>, n: nat)
    requires IsRun(run) && n <= |run|
    ensures Consistent(StateAt(run, n))
  {
    forall k | 0 <= k < n ensures FollowsBy(run, k, Step) { assert Follows(run, k); }
    forall s, c | Consistent(s) ensures Consistent(Step(s, c).state) { StepConsistent(s, c); }
    HoldsOn(run, 0, n, Step, Consistent);
  }

  /** At every call boundary, recovering excludes being selected and being stopped. */
  lemma RecoveringExcludes(run: seq<Entry>, n: nat)
    requires IsRun(run) && n <= |run|
    ensures StateAt(run, n).recovering ==> !StateAt(run, n).selected && !StateAt(run, n).stopped
  {
    AlwaysConsistent(run, n);
  }

  // What the state after `n` calls says about the calls.
  ghost predicate Explained(run: seq<Entry>, n: nat, s: State)
    requires n <= |run|
  {
    var i := LastBegin(run, n);
    && (i < 0 ==> !s.selected && s.key == NO_KEY)
    && (i >= 0 ==> s.key == run[i].call.key)
    && (i >= 0 && s.selected && s.stage == Complete ==> EverCompletesRR(run, i, n))
    && (i >= 0 && s.selected && !s.reset ==> CarriesOn(run, i))
  }

  /** What a `Begin` that selects without a reset says about the state before it. */
  lemma BeginWithoutReset(s: State, k: Key, requested: bool, ready: bool)
    requires Consistent(s)
    ensures var t := BeginStep(s, k, requested, ready);
            t.selected && !t.reset ==>
              s.selected && s.stage == Complete && SameExtent(k, s.key) && k.rtEffects == s.key.rtEffects
  {
  }

  lemma ExplainBegin(run: seq<Entry>, n: nat, s: State, t: State)
    requires n < |run| && Explained(run, n, s) && Consistent(s) && run[n].call.Begin?
    requires t == Step(s, run[n].call).state
    ensures Explained(run, n + 1, t)
  {
    BeginWithoutReset(s, run[n].call.key, run[n].call.requested, run[n].call.ready);
    assert LastBegin(run, n + 1) == n;
  }

  /** What the other calls leave alone. */
  lemma OtherCalls(s: State, c: Call)
    requires !c.Begin?
    ensures var Result(t, ok) := Step(s, c);
            && t.key == s.key && t.selected == s.selected && (s.reset ==> t.reset)
            && (t.selected && t.stage == Complete && s.stage != Complete ==> c.EvaluationResult? && ok)
  {
    match c
    case FeatureResult(_, _) =>
    case HistoryResetResult(_) =>
    case BeginLighting(_) =>
    case BeginEvaluation(_, _, _) =>
    case EvaluationResult(_) =>
    case CompleteSR(_, _) =>
    case Fail(_) =>
  }

  lemma ExplainOther(run: seq<Entry>, n: nat, s: State, t: State)
    requires n < |run| && Explained(run, n, s) && !run[n].call.Begin?
    requires t.key == s.key && t.selected == s.selected && (s.reset ==> t.reset)
    requires t.selected && t.stage == Complete && s.stage != Complete ==> run[n].call.EvaluationResult? && run[n].ok
    ensures Explained(run, n + 1, t)
  {
    var i := LastBegin(run, n);
    assert LastBegin(run, n + 1) == i;
    if i >= 0 && t.selected && t.stage == Complete {
      if s.stage == Complete {
        var c :| 0 <= c < n && CompletesRR(run, i, c);
        assert CompletesRR(run, i, c);
      } else {
        assert CompletesRR(run, i, n);
      }
    }
  }

  lemma {:induction false} AlwaysExplained(run: seq<Entry>, n: nat)
    requires IsRun(run) && n <= |run|
    ensures Explained(run, n, StateAt(run, n))
  {
    if n > 0 {
      var m := n - 1;
      AlwaysExplained(run, m);
      AlwaysConsistent(run, m);
      assert Follows(run, m);
      if run[m].call.Begin? {
        ExplainBegin(run, m, run[m].before, run[m].after);
      } else {
        OtherCalls(run[m].before, run[m].call);
        ExplainOther(run, m, run[m].before, run[m].after);
      }
    }
  }

  /**
    Completed RR frames form unbroken runs that start with a reset: a frame that
    completes RR evaluation without `Reset()` was begun right after a frame that
    itself completed RR evaluation, at the same extent and effects.
  */
  lemma HistoryTrusted(run: seq<Entry>, i: int, c: nat)
    requires IsRun(run) && c < |run| && CompletesRR(run, i, c) && !run[c].after.reset
    ensures CarriesOn(run, i)
  {
    AlwaysExplained(run, c);
    AlwaysConsistent(run, c);
    assert Follows(run, c);
  }

  lemma StepKeepsStop(s: State, c: Call)
    requires s.stopped
    ensures var Result(t, ok) := Step(s, c);
            && t.stopped && t.stopReason == s.stopReason
            && (c.Begin? ==> !ok && !t.selected)
  {
    match c
    case Begin(_, _, _) =>
    case FeatureResult(_, _) =>
    case HistoryResetResult(_) =>
    case BeginLighting(_) =>
    case BeginEvaluation(_, _, _) =>
    case EvaluationResult(_) =>
    case CompleteSR(_, _) =>
    case Fail(_) =>
  }

  /** Stopping is final: the first reason stays, and no frame begun afterwards is selected. */
  lemma {:induction false} StoppedForever(run: seq<Entry>, n: nat, m: nat)
    requires IsRun(run) && n <= m < |run| && StateAt(run, n).stopped
    ensures run[m].after.stopped && run[m].after.stopReason == StateAt(run, n).stopReason
    ensures run[m].call.Begin? ==> !run[m].ok && !run[m].after.selected
    decreases m
  {
    if m > n { StoppedForever(run, n, m - 1); }
    assert Follows(run, m);
    StepKeepsStop(run[m].before, run[m].call);
  }

  /** A frame that puts the coordinator into recovery: its extent differs, or it abandons an RR frame at `Ready`. */
  predicate Disturbs(e: Entry)
  {
    e.call.Begin? && (ExtentChanges(e.before, e.call.key) || (e.before.selected && e.before.stage == Ready))
  }

  /** A super-resolution frame completes with a matching frame and clean history. */
  predicate CleanSR(e: Entry)
  {
    e.call.CompleteSR? && e.call.frameMatches && e.ok && !e.before.historyDirty && !e.before.selected
  }

  ghost predicate Recovered(run: seq<Entry>, i: nat, n: nat)
    requires n <= |run|
  {
    exists m :: i < m < n && CleanSR(run[m])
  }

  lemma DisturbanceHolds(s: State, c: Call)
    requires Consistent(s)
    ensures var Result(t, ok) := Step(s, c);
            && (Disturbs(Entry(s, c, ok, t)) ==> t.recovering || t.stopped)
            && ((s.recovering || s.stopped) && !CleanSR(Entry(s, c, ok, t)) ==> t.recovering || t.stopped)
            && (c.Begin? && (t.recovering || t.stopped) ==> !ok)
  {
    match c
    case Begin(_, _, _) =>
    case FeatureResult(_, _) =>
    case HistoryResetResult(_) =>
    case BeginLighting(_) =>
    case BeginEvaluation(_, _, _) =>
    case EvaluationResult(_) =>
    case CompleteSR(_, _) =>
    case Fail(_) =>
  }

  lemma {:induction false} RecoveryHolds(run: seq<Entry>, i: nat, n: nat)
    requires IsRun(run) && i < n <= |run| && Disturbs(run[i])
    ensures Recovered(run, i, n) || StateAt(run, n).recovering || StateAt(run, n).stopped
    decreases n
  {
    var m := n - 1;
    AlwaysConsistent(run, m);
    assert Follows(run, m);
    DisturbanceHolds(run[m].before, run[m].call);
    assert run[m] == Entry(run[m].before, run[m].call, run[m].ok, run[m].after);
    if m > i {
      RecoveryHolds(run, i, m);
      if Recovered(run, i, m) {
        var r :| i < r < m && CleanSR(run[r]);
        assert CleanSR(run[r]);
      }
    }
  }

  /** After a disturbance no frame is selected until a clean SR frame has completed. */
  lemma SelectionNeedsRecovery(run: seq<Entry>, i: nat, j: nat)
    requires IsRun(run) && i <= j < |run| && Disturbs(run[i]) && run[j].call.Begin? && run[j].ok
    ensures Recovered(run, i, j)
  {
    RecoveryHolds(run, i, j + 1);
    AlwaysConsistent(run, j);
    assert Follows(run, j);
    DisturbanceHolds(run[j].before, run[j].call);
  }

  /** Recovery can always be left: one clean SR frame, and the next RR frame is selected with a reset. */
  lemma RecoveryCompletes(s: State, k: Key, next: Key)
    requires Consistent(s) && s.recovering
    requires s.key.frame < k.frame < next.frame && ExtentOk(k) && SameExtent(k, next)
    ensures var begun := Step(s, Begin(k, false, false)).state;
            var made := Step(begun, FeatureResult(true, false)).state;
            var cleaned := if made.historyDirty then Step(made, HistoryResetResult(true)).state else made;
            var done := Step(cleaned, CompleteSR(true, true));
            var resumed := Step(done.state, Begin(next, true, true));
            done.ok && resumed.ok && resumed.state.reset && !resumed.state.recovering && !resumed.state.stopped
  {
  }

  // --- The stages of one RR frame ---

  predicate FeatureCreated(e: Entry) { e.call == Call.FeatureResult(true, true) && e.ok }

  predicate LightingBegun(e: Entry, frame: nat) { e.call == Call.BeginLighting(frame) && e.ok }

  predicate EvaluationBegun(e: Entry, frame: nat) { e.call == Call.BeginEvaluation(frame, true, true) && e.ok }

  ghost predicate PassedFeature(run: seq<Entry>, i: int, n: nat)
    requires n <= |run|
  {
    exists f :: 0 <= i < f < n && FeatureCreated(run[f])
  }

  ghost predicate PassedLighting(run: seq<Entry>, i: int, n: nat, frame: nat)
    requires n <= |run|
  {
    exists l :: 0 <= l < n && PassedFeature(run, i, l) && LightingBegun(run[l], frame)
  }

  ghost predicate PassedEvaluation(run: seq<Entry>, i: int, n: nat, frame: nat)
    requires n <= |run|
  {
    exists e :: 0 <= e < n && PassedLighting(run, i, e, frame) && EvaluationBegun(run[e], frame)
  }

  /** The stage of a selected frame tells which of its calls have succeeded so far. */
  ghost predicate InOrder(run: seq<Entry>, n: nat, s: State)
    requires n <= |run|
  {
    var i := LastBegin(run, n);
    && (s.selected && s.stage == Ready ==> PassedFeature(run, i, n))
    && (s.stage == Lighting ==> PassedLighting(run, i, n, s.key.frame))
    && (s.stage == Evaluating ==> PassedEvaluation(run, i, n, s.key.frame))
  }

  lemma FeatureAdvances(s: State, success: bool, activeRR: bool)
    requires Consistent(s)
    ensures var Result(t, ok) := FeatureStep(s, success, activeRR);
            && (t.selected && t.stage == Ready ==> success && activeRR && ok)
            && t.stage != Lighting && t.stage != Evaluating && t.key == s.key
  {
  }

  lemma Advances(s: State, c: Call)
    requires Consistent(s)
    ensures var Result(t, ok) := Step(s, c);
            && (t.selected && t.stage == Ready && !c.HistoryResetResult? ==> c == Call.FeatureResult(true, true) && ok)
            && (t.stage == Lighting ==> s.stage == Ready && s.selected && c == Call.BeginLighting(s.key.frame) && ok)
            && (t.stage == Evaluating ==> s.stage == Lighting && c == Call.BeginEvaluation(s.key.frame, true, true) && ok)
            && (c.HistoryResetResult? ==> !(t.selected && t.stage == Ready))
            && (c.Begin? ==> t.stage == Selected)
            && (!c.Begin? ==> t.key == s.key)
  {
    match c
    case Begin(k, requested, ready) => BeginConsistent(s, k, requested, ready);
    case FeatureResult(success, activeRR) => FeatureAdvances(s, success, activeRR);
    case HistoryResetResult(_) =>
    case BeginLighting(_) =>
    case BeginEvaluation(_, _, _) =>
    case EvaluationResult(_) =>
    case CompleteSR(_, _) =>
    case Fail(_) =>
  }

  lemma {:induction false} StagesInOrder(run: seq<Entry>, n: nat)
    requires IsRun(run) && n <= |run|
    ensures InOrder(run, n, StateAt(run, n))
  {
    if n > 0 {
      var m := n - 1;
      StagesInOrder(run, m);
      AlwaysConsistent(run, m);
      AlwaysExplained(run, m);
      assert Follows(run, m);
      Advances(run[m].before, run[m].call);
      if !run[m].call.Begin? {
        assert LastBegin(run, n) == LastBegin(run, m);
      }
    }
  }

  /** A completed RR frame was created, lit and evaluated under its own frame number, in that order. */
  lemma CompletedInOrder(run: seq<Entry>, i: int, c: nat) returns (f: nat, l: nat, e: nat)
    requires IsRun(run) && c < |run| && CompletesRR(run, i, c)
    ensures i < f < l < e < c && FeatureCreated(run[f])
    ensures LightingBegun(run[l], run[i].call.key.frame) && EvaluationBegun(run[e], run[i].call.key.frame)
  {
    StagesInOrder(run, c);
    AlwaysExplained(run, c);
    assert Follows(run, c);
    var frame := run[i].call.key.frame;
    e :| 0 <= e < c && PassedLighting(run, i, e, frame) && EvaluationBegun(run[e], frame);
    l :| 0 <= l < e && PassedFeature(run, i, l) && LightingBegun(run[l], frame);
    f :| 0 <= i < f < l && FeatureCreated(run[f]);
  }

  // --- Frame numbers ---

  // A frame number `frame` was in use: later ones must be larger, or the coordinator has stopped.
  predicate Above(s: State, frame: nat)
  {
    s.stopped || (frame <= s.key.frame && (s.fixed.frame != 0 || (s.selected && s.stage == Selected)))
  }

  lemma BeginAbove(s: State, k: Key, requested: bool, ready: bool, frame: nat)
    requires Consistent(s)
    ensures var t := BeginStep(s, k, requested, ready);
            && (Above(s, frame) ==> Above(t, frame) && (t.selected ==> frame < k.frame))
            && (t.selected ==> Above(t, k.frame))
  {
    BeginConsistent(s, k, requested, ready);
  }

  lemma FeatureAbove(s: State, success: bool, activeRR: bool, frame: nat)
    requires Consistent(s) && Above(s, frame)
    ensures Above(FeatureStep(s, success, activeRR).state, frame)
  {
  }

  lemma OtherAbove(s: State, c: Call, frame: nat)
    requires Consistent(s) && Above(s, frame) && !c.Begin? && !c.FeatureResult?
    ensures Above(Step(s, c).state, frame)
  {
    match c
    case HistoryResetResult(_) =>
    case BeginLighting(_) =>
    case BeginEvaluation(_, _, _) =>
    case EvaluationResult(_) =>
    case CompleteSR(_, _) =>
    case Fail(_) =>
  }

  lemma StaysAbove(s: State, c: Call, frame: nat)
    requires Consistent(s) && Above(s, frame)
    ensures Above(Step(s, c).state, frame)
  {
    match c
    case Begin(k, requested, ready) => BeginAbove(s, k, requested, ready, frame);
    case FeatureResult(success, activeRR) => FeatureAbove(s, success, activeRR, frame);
    case _ => OtherAbove(s, c, frame);
  }

  lemma FrameNumbersGrow(run: seq<Entry>, i: nat, n: nat)
    requires IsRun(run) && i < n <= |run| && run[i].call.Begin? && run[i].ok
    ensures Above(StateAt(run, n), run[i].call.key.frame)
  {
    var frame := run[i].call.key.frame;
    var holds := (s: State) => Consistent(s) && Above(s, frame);
    AlwaysConsistent(run, i);
    AlwaysConsistent(run, i + 1);
    assert Follows(run, i);
    BeginAbove(run[i].before, run[i].call.key, run[i].call.requested, run[i].call.ready, frame);
    forall k | i + 1 <= k < n ensures FollowsBy(run, k, Step) { assert Follows(run, k); }
    forall s, c | holds(s) ensures holds(Step(s, c).state) {
      StepConsistent(s, c);
      StaysAbove(s, c, frame);
    }
    HoldsOn(run, i + 1, n, Step, holds);
  }

  /** Selected frames carry strictly increasing frame numbers. */
  lemma SelectedFramesIncrease(run: seq<Entry>, i: nat, j: nat)
    requires IsRun(run) && i < j < |run|
    requires run[i].call.Begin? && run[j].call.Begin? && run[i].ok && run[j].ok
    ensures run[i].call.key.frame < run[j].call.key.frame
  {
    FrameNumbersGrow(run, i, j);
    AlwaysConsistent(run, j);
    assert Follows(run, j);
    BeginAbove(run[j].before, run[j].call.key, run[j].call.requested, run[j].call.ready, run[i].call.key.frame);
  }
}
