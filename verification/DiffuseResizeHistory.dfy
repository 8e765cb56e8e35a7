/**
  Runs of the replay targets: what is destroyed has long been used for the last
  time, and nothing is recorded while a resize is pending
  (src/rr_diffuse_resize.h:20-53).
*/
module DiffuseResizeHistory {
  import opened ReplayStage
  import opened DiffuseResize

  datatype Entry = Entry(before: Life, call: Call, after: Life)

  predicate Follows(run: seq<Entry>, n: nat)
    requires n < |run|
  {
    run[n].before == (if n == 0 then UNMADE else run[n - 1].after) && run[n].after == Step(run[n].before, run[n].call)
  }

  predicate IsRun(run: seq<Entry>)
  {
    forall n :: 0 <= n < |run| ==> Follows(run, n)
  }

  function StateAt(run: seq<Entry>, n: nat): Life
    requires n <= |run|
  {
    if n == 0 then UNMADE else run[n - 1].after
  }

  // --- What the log says ---

  /** What a log shows about the targets: their last use, the fence value signalled for it, and whether that was reached. */
  datatype Digest = Digest(lastUse: nat, waiting: nat, finished: bool)

  function Fold(d: Digest, e: Event): Digest
  {
    match e
    case Used(present) => Digest(present, 0, false)
    case Signalled(present, value) => if present > d.lastUse then d.(waiting := value) else d
    case Seen(value) => if d.waiting != 0 && value >= d.waiting then d.(finished := true) else d
    case Destroyed(_) => d
  }

  /** The first `n` events. */
  function Digested(log: seq<Event>, n: nat): Digest
    requires n <= |log|
  {
    if n == 0 then Digest(0, 0, false) else Fold(Digested(log, n - 1), log[n - 1])
  }

  /** Targets are destroyed only once their last use is known to be over. */
  predicate Safe(log: seq<Event>)
  {
    forall n :: 0 <= n < |log| && log[n].Destroyed? ==> Digested(log, n).finished
  }

  lemma {:induction false} DigestStays(log: seq<Event>, e: Event, n: nat)
    requires n <= |log|
    ensures Digested(log + [e], n) == Digested(log, n)
  {
    if n > 0 {
      DigestStays(log, e, n - 1);
      assert (log + [e])[n - 1] == log[n - 1];
    }
  }

  function Now(log: seq<Event>): Digest { Digested(log, |log|) }

  lemma LogGrows(log: seq<Event>, e: Event)
    ensures Now(log + [e]) == Fold(Now(log), e)
    ensures Safe(log) && (e.Destroyed? ==> Now(log).finished) ==> Safe(log + [e])
  {
    var more := log + [e];
    DigestStays(log, e, |log|);
    assert more[|log|] == e;
    if Safe(log) && (e.Destroyed? ==> Now(log).finished) {
      forall n | 0 <= n < |more| && more[n].Destroyed? ensures Digested(more, n).finished {
        DigestStays(log, e, n);
        if n < |log| { assert more[n] == log[n]; }
      }
    }
  }

  predicate NoUse(log: seq<Event>, from: nat, n: nat)
    requires n <= |log|
  {
    forall i :: from <= i < n ==> !log[i].Used?
  }

  /** `m` is the last use before `n`. */
  predicate LastUse(log: seq<Event>, m: nat, n: nat)
    requires n <= |log|
  {
    m < n && log[m].Used? && NoUse(log, m + 1, n)
  }

  lemma {:induction false} LastUseDigested(log: seq<Event>, m: nat, n: nat)
    requires n <= |log| && LastUse(log, m, n)
    ensures Digested(log, n).lastUse == log[m].present
  {
    if m < n - 1 { LastUseDigested(log, m, n - 1); }
  }

  /** A value is waited for: it was signalled behind a Present later than the last use, and nothing was used since. */
  lemma {:induction false} WaitingMeans(log: seq<Event>, n: nat) returns (k: nat)
    requires n <= |log| && Digested(log, n).waiting != 0
    ensures k < n && log[k].Signalled? && log[k].value == Digested(log, n).waiting
    ensures log[k].present > Digested(log, n).lastUse && NoUse(log, k, n)
  {
    if n > 0 {
      var d := Digested(log, n - 1);
      if log[n - 1].Signalled? && log[n - 1].present > d.lastUse { k := n - 1; } else { k := WaitingMeans(log, n - 1); }
    }
  }

  /** The last use is over: such a value was later seen to be reached. */
  lemma {:induction false} FinishedMeans(log: seq<Event>, n: nat) returns (k: nat, j: nat)
    requires n <= |log| && Digested(log, n).finished
    ensures k < j < n && log[k].Signalled? && log[k].present > Digested(log, n).lastUse && NoUse(log, k, n)
    ensures log[j].Seen? && log[j].value >= log[k].value
  {
    if n > 0 {
      var d := Digested(log, n - 1);
      if d.finished {
        k, j := FinishedMeans(log, n - 1);
      } else {
        k := WaitingMeans(log, n - 1);
        j := n - 1;
      }
    }
  }

  // --- The invariant of every reachable state ---

  predicate LogOk(s: Life)
  {
    && Safe(s.log) && Now(s.log).lastUse == s.lastUse
    && (s.retireFence != 0 ==> Now(s.log).waiting == s.retireFence)
  }

  /** While a resize is pending nothing is being recorded or waits to be evaluated. */
  predicate StageOk(s: Life)
  {
    && |s.targets| == TARGETS
    && (s.pending ==> s.stage == Idle || s.stage == Stopped)
    && (s.retireFence != 0 ==> s.pending)
  }

  ghost predicate WellFormed(s: Life) { LogOk(s) && StageOk(s) }

  lemma {:induction false} DestroyKeepsLog(s: Life, i: nat, destroys: nat -> bool)
    requires LogOk(s) && Now(s.log).finished && i <= |s.targets|
    ensures LogOk(DestroyFrom(s, i, destroys).life)
    decreases |s.targets| - i
  {
    if i < |s.targets| {
      if !s.targets[i] {
        DestroyKeepsLog(s, i + 1, destroys);
      } else if destroys(i) {
        LogGrows(s.log, Destroyed(i));
        DestroyKeepsLog(s.(targets := s.targets[i := false], log := s.log + [Destroyed(i)]), i + 1, destroys);
      }
    }
  }

  /** Destroying changes only the targets, the log and, when it fails, the stage. */
  lemma {:induction false} DestroyKeepsRest(s: Life, i: nat, destroys: nat -> bool)
    requires i <= |s.targets|
    ensures var t := DestroyFrom(s, i, destroys).life;
            && |t.targets| == |s.targets| && t.pending == s.pending && t.retireFence == s.retireFence && t.lastUse == s.lastUse
            && (t.stage == s.stage || t.stage == Stopped)
    decreases |s.targets| - i
  {
    if i < |s.targets| {
      if !s.targets[i] {
        DestroyKeepsRest(s, i + 1, destroys);
      } else if destroys(i) {
        DestroyKeepsRest(s.(targets := s.targets[i := false], log := s.log + [Destroyed(i)]), i + 1, destroys);
      }
    }
  }

  lemma DestroyKeeps(s: Life, f: Frame)
    requires WellFormed(s) && s.pending && Now(s.log).finished
    ensures WellFormed(Resized(DestroyFrom(s, 0, f.destroys), f).life)
  {
    DestroyKeepsLog(s, 0, f.destroys);
    DestroyKeepsRest(s, 0, f.destroys);
  }

  lemma RetireKeeps(s: Life, f: Frame)
    requires WellFormed(s) && s.pending
    ensures WellFormed(RetireStep(s, f).life) && (RetireStep(s, f).ok ==> !RetireStep(s, f).life.pending && RetireStep(s, f).life.retireFence == 0)
  {
    if s.retireFence != 0 && f.reading.Reached? {
      LogGrows(s.log, Seen(f.reading.value));
      if f.reading.value >= s.retireFence { DestroyKeeps(s.(log := s.log + [Seen(f.reading.value)]), f); }
    }
  }

  lemma ResizeKeeps(s: Life, f: Frame)
    requires WellFormed(s)
    ensures WellFormed(ResizeStep(s, f).life)
    ensures ResizeStep(s, f).ok ==> !ResizeStep(s, f).life.pending && ResizeStep(s, f).life.retireFence == 0
  {
    if !(s.width == f.width && s.height == f.height && !s.pending) && f.onThread && s.stage != Recording {
      RetireKeeps(if s.pending then s else s.(pending := true, stage := Idle), f);
    }
  }

  lemma UseKeeps(s: Life, f: Frame)
    requires WellFormed(s) && !s.pending && s.retireFence == 0
    ensures WellFormed(Use(s, f)) && !Use(s, f).pending
  {
    LogGrows(s.log, Used(f.present));
  }

  lemma {:induction false} MakeKeeps(s: Life, i: nat, f: Frame)
    requires WellFormed(s) && !s.pending
    ensures WellFormed(MakeFrom(s, i, f)) && MakeFrom(s, i, f).log == s.log
    decreases f.targets - i
  {
    if i < f.targets && i < TARGETS && (s.targets[i] || f.creates(i)) && f.clears(i) {
      MakeKeeps(s.(targets := s.targets[i := true]), i + 1, f);
    }
  }

  lemma BeginKeeps(s: Life, f: Frame)
    requires WellFormed(s)
    ensures WellFormed(Begin(ResizeStep(s, f), f))
  {
    ResizeKeeps(s, f);
    var r := ResizeStep(s, f);
    if r.ok && f.selection == Accepted {
      UseKeeps(r.life, f);
      MakeKeeps(Use(r.life, f), 0, f);
    }
  }

  lemma PrepareKeeps(s: Life, f: Frame)
    requires WellFormed(s)
    ensures WellFormed(PrepareStep(s, f))
  {
    BeginKeeps(if s.made then s else s.(made := true, width := f.width, height := f.height), f);
  }

  lemma PresentKeeps(s: Life, present: nat, onThread: bool, signalled: bool)
    requires WellFormed(s)
    ensures WellFormed(PresentStep(s, present, onThread, signalled))
  {
    LogGrows(s.log, Signalled(present, s.signal + 1));
  }

  lemma StepKeeps(s: Life, c: Call)
    requires WellFormed(s)
    ensures WellFormed(Step(s, c))
  {
    match c
    case Prepare(f) => PrepareKeeps(s, f);
    case AfterPresent(present, onThread, signalled) => PresentKeeps(s, present, onThread, signalled);
    case Join(clean) =>
    case LiveFailure =>
  }

  lemma {:induction false} AlwaysWellFormed(run: seq<Entry>, n: nat)
    requires IsRun(run) && n <= |run|
    ensures WellFormed(StateAt(run, n))
  {
    if n > 0 {
      AlwaysWellFormed(run, n - 1);
      assert Follows(run, n - 1);
      StepKeeps(run[n - 1].before, run[n - 1].call);
    }
  }

  /**
    In every run, a target is destroyed only after a fence value was signalled
    behind a Present later than the last use, and seen to be reached.
  */
  lemma DestroyedAfterLastUse(run: seq<Entry>, n: nat, d: nat, m: nat) returns (k: nat, j: nat)
    requires IsRun(run) && n <= |run| && d < |StateAt(run, n).log| && StateAt(run, n).log[d].Destroyed?
    requires LastUse(StateAt(run, n).log, m, d)
    ensures var log := StateAt(run, n).log;
            && m < k < j < d && log[k].Signalled? && log[m].present < log[k].present
            && log[j].Seen? && log[j].value >= log[k].value
  {
    AlwaysWellFormed(run, n);
    var log := StateAt(run, n).log;
    LastUseDigested(log, m, d);
    k, j := FinishedMeans(log, d);
  }

  /** In every run, nothing is recorded while a resize is pending, and no use is begun. */
  lemma NothingRecordedWhilePending(run: seq<Entry>, n: nat)
    requires IsRun(run) && n < |run|
    ensures StateAt(run, n).pending ==> StateAt(run, n).stage != Recording
    ensures run[n].after.pending ==> forall m :: |run[n].before.log| <= m < |run[n].after.log| ==> !run[n].after.log[m].Used?
  {
    AlwaysWellFormed(run, n);
    assert Follows(run, n);
    var s, c := run[n].before, run[n].call;
    if c.Prepare? { PendingUnused(s, c.frame); }
  }

  lemma PendingUnused(s: Life, f: Frame)
    requires WellFormed(s)
    ensures var t := PrepareStep(s, f);
            t.pending ==> forall m :: |s.log| <= m < |t.log| ==> !t.log[m].Used?
  {
    var b := if s.made then s else s.(made := true, width := f.width, height := f.height);
    ResizeKeeps(b, f);
    var r := ResizeStep(b, f);
    if r.ok && f.selection == Accepted {
      UseKeeps(r.life, f);
      MakePending(Use(r.life, f), 0, f);
    } else {
      ResizeUnused(b, f);
    }
  }

  lemma {:induction false} MakePending(s: Life, i: nat, f: Frame)
    ensures MakeFrom(s, i, f).pending == s.pending
    decreases f.targets - i
  {
    if i < f.targets && i < |s.targets| && (s.targets[i] || f.creates(i)) && f.clears(i) {
      MakePending(s.(targets := s.targets[i := true]), i + 1, f);
    }
  }

  predicate NoUses(before: seq<Event>, after: seq<Event>)
  {
    |before| <= |after| && forall m :: |before| <= m < |after| ==> !after[m].Used?
  }

  lemma {:induction false} DestroyUnused(before: seq<Event>, s: Life, i: nat, destroys: nat -> bool)
    requires i <= |s.targets| && NoUses(before, s.log)
    ensures NoUses(before, DestroyFrom(s, i, destroys).life.log)
    decreases |s.targets| - i
  {
    if i < |s.targets| {
      if !s.targets[i] {
        DestroyUnused(before, s, i + 1, destroys);
      } else if destroys(i) {
        DestroyUnused(before, s.(targets := s.targets[i := false], log := s.log + [Destroyed(i)]), i + 1, destroys);
      }
    }
  }

  lemma ResizeUnused(s: Life, f: Frame)
    ensures NoUses(s.log, ResizeStep(s, f).life.log)
  {
    var b := if s.pending then s else s.(pending := true, stage := Idle);
    if f.reading.Reached? { DestroyUnused(s.log, b.(log := b.log + [Seen(f.reading.value)]), 0, f.destroys); }
  }

  /** A stopped replay keeps its targets for good. */
  lemma {:induction false} StoppedForever(run: seq<Entry>, m: nat, n: nat)
    requires IsRun(run) && m <= n <= |run| && StateAt(run, m).stage == Stopped
    ensures StateAt(run, n) == StateAt(run, m)
  {
    if m < n {
      StoppedForever(run, m, n - 1);
      assert Follows(run, n - 1);
    }
  }
}
