/**
  What the pixel capture does when nothing goes wrong: a burst captures every input
  of four frames, and each copy ends up written (src/fg_pixel_capture.h:36-147).
*/
module PixelCaptureProgress {
  import opened PixelCapture
  import opened PixelCaptureHistory

  // --- One copy ---

  /** Used jobs stay where they are. */
  predicate KeepsUsed(a: seq<Job>, b: seq<Job>)
  {
    |a| == |b| && forall i :: 0 <= i < |a| && Used(a[i]) ==> b[i] == a[i]
  }

  lemma KeepsMember(a: seq<Job>, b: seq<Job>, j: Job)
    requires KeepsUsed(a, b) && Used(j) && j in a
    ensures j in b
  {
    var i :| 0 <= i < |a| && a[i] == j;
    assert b[i] == j;
  }

  /** A copy that can be set up is recorded, with everything it was asked for. */
  lemma TryCaptures(p: Progress, c: Call, k: nat, role: nat)
    requires c.Produce? && InFrame(p, c, k) && k <= role < ROLES
    ensures var q, j := Try(p, true, SourceJob(p.state, c, role)), SourceJob(p.state, c, role);
            && q.attempts == p.attempts + [Captured] && q.state == p.state.(jobs := q.state.jobs)
            && InFrame(q, c, role + 1) && j in q.state.jobs && KeepsUsed(p.state.jobs, q.state.jobs)
  {
    var s, j := p.state, SourceJob(p.state, c, role);
    TryInput(p, true, c, k, role);
    forall i | 0 <= i < |s.jobs| ensures PairOk(s.jobs[i], j) && PairOk(j, s.jobs[i]) {
      assert JobOk(s, s.jobs[i]);
    }
    NeverFull(s, j);
    var i := FirstFree(s.jobs, 0);
    var t := s.jobs[i := j];
    assert t[i] == j;
  }

  // --- One frame ---

  /** Nothing gets in the way of the producer's copies. */
  predicate SetUp(c: Call)
    requires c.Produce?
  {
    c.source && c.hudless && c.alpha && (c.pq ==> c.pqSetup)
  }

  /** The call is for the next frame of the running burst, in time. */
  predicate Due(s: State, c: Call)
    requires c.Produce?
  {
    s.remaining > 0 && s.epoch == c.epoch && !c.late && if s.ordinal > 0 then c.frame == s.lastFrame + 1 else c.frame != s.lastFrame
  }

  /** The inputs of a frame have their jobs. */
  predicate FrameHeld(jobs: seq<Job>, burst: nat, ordinal: nat, c: Call)
    requires c.Produce?
  {
    && Job(Recorded, burst, ordinal, 0, c.frame, c.epoch, c.list) in jobs
    && Job(Recorded, burst, ordinal, 2, c.frame, c.epoch, c.list) in jobs
    && Job(Recorded, burst, ordinal, 3, c.frame, c.epoch, c.list) in jobs
    && (c.pq ==> Job(Recorded, burst, ordinal, 4, c.frame, c.epoch, c.list) in jobs)
  }

  lemma HeldStays(a: seq<Job>, b: seq<Job>, burst: nat, ordinal: nat, c: Call)
    requires c.Produce? && KeepsUsed(a, b) && FrameHeld(a, burst, ordinal, c)
    ensures FrameHeld(b, burst, ordinal, c)
  {
    KeepsMember(a, b, Job(Recorded, burst, ordinal, 0, c.frame, c.epoch, c.list));
    KeepsMember(a, b, Job(Recorded, burst, ordinal, 2, c.frame, c.epoch, c.list));
    KeepsMember(a, b, Job(Recorded, burst, ordinal, 3, c.frame, c.epoch, c.list));
    if c.pq { KeepsMember(a, b, Job(Recorded, burst, ordinal, 4, c.frame, c.epoch, c.list)); }
  }

  function Captures(n: nat): (attempts: seq<Attempt>)
    ensures |attempts| == n && AllCaptured(attempts)
  {
    seq(n, _ => Captured)
  }

  lemma TagCaptured(p: Progress, c: Call)
    requires c.Produce? && (c.pq ==> c.pqSetup) && InFrame(p, c, 4) && p.attempts == Captures(3)
    requires SourceJob(p.state, c, 0) in p.state.jobs && SourceJob(p.state, c, 2) in p.state.jobs && SourceJob(p.state, c, 3) in p.state.jobs
    ensures var q := TagInput(p, c, SourceJob(p.state, c, 4));
            && q.attempts == Captures(if c.pq then 4 else 3) && q.state == p.state.(jobs := q.state.jobs) && WellFormed(q.state)
            && KeepsUsed(p.state.jobs, q.state.jobs) && FrameHeld(q.state.jobs, p.state.burst, p.state.ordinal, c)
  {
    if c.pq {
      TryCaptures(p, c, 4, 4);
      var tagged := Try(p, true, SourceJob(p.state, c, 4));
      KeepsMember(p.state.jobs, tagged.state.jobs, SourceJob(p.state, c, 0));
      KeepsMember(p.state.jobs, tagged.state.jobs, SourceJob(p.state, c, 2));
      KeepsMember(p.state.jobs, tagged.state.jobs, SourceJob(p.state, c, 3));
    }
  }

  /** The other inputs, once the source is there. */
  lemma InputsCaptured(s: State, c: Call)
    requires c.Produce? && SetUp(c) && InFrame(Progress(s, [Captured]), c, 1)
    requires Job(Recorded, s.burst, s.ordinal, 0, c.frame, c.epoch, c.list) in s.jobs
    ensures var q := Inputs(s, c);
            && q.attempts == Captures(if c.pq then 4 else 3) && q.state == s.(jobs := q.state.jobs) && WellFormed(q.state)
            && KeepsUsed(s.jobs, q.state.jobs) && FrameHeld(q.state.jobs, s.burst, s.ordinal, c)
  {
    var p := Progress(s, [Captured]);
    TryCaptures(p, c, 1, 2);
    var hudless := Try(p, true, SourceJob(s, c, 2));
    TryCaptures(hudless, c, 3, 3);
    var alpha := Try(hudless, true, SourceJob(s, c, 3));
    KeepsMember(s.jobs, hudless.state.jobs, SourceJob(s, c, 0));
    KeepsMember(hudless.state.jobs, alpha.state.jobs, SourceJob(s, c, 0));
    KeepsMember(hudless.state.jobs, alpha.state.jobs, SourceJob(s, c, 2));
    TagCaptured(alpha, c);
  }

  lemma SourceCaptured(s: State, c: Call)
    requires c.Produce? && WellFormed(s) && Due(s, c) && c.source
    ensures var r := Record(s, true, FrameSource(s, c));
            var t := Counted(s.(jobs := r.0.jobs), c.frame);
            && r.1 == Captured && InFrame(Progress(t, [Captured]), c, 1) && KeepsUsed(s.jobs, t.jobs)
            && Job(Recorded, t.burst, t.ordinal, 0, c.frame, c.epoch, c.list) in t.jobs
  {
    NextFrame(s, c.frame);
    TryCaptures(Progress(Counted(s, c.frame), []), c, 0, 0);
    SourceKeeps(s, c);
  }

  /** A frame that is due has all its inputs captured, and the burst goes on to the next. */
  lemma FrameCaptured(s: State, c: Call)
    requires c.Produce? && WellFormed(s) && Due(s, c) && SetUp(c)
    ensures var q := Step(s, c);
            && q.attempts == Captures(if c.pq then 4 else 3) && WellFormed(q.state) && KeepsUsed(s.jobs, q.state.jobs)
            && FrameHeld(q.state.jobs, s.burst, s.ordinal + 1, c)
            && q.state == s.(jobs := q.state.jobs, lastFrame := c.frame, ordinal := s.ordinal + 1, remaining := s.remaining - 1)
  {
    SourceCaptured(s, c);
    var t := Counted(s.(jobs := Record(s, true, FrameSource(s, c)).0.jobs), c.frame);
    InputsCaptured(t, c);
    assert ProduceStep(s, c) == FrameStep(s, c) == FrameEnd(Inputs(t, c));
  }

  lemma TryFails(p: Progress, job: Job)
    ensures var q := Try(p, false, job); |q.attempts| == |p.attempts| + 1 && q.attempts[|p.attempts|] != Captured && q.attempts[..|p.attempts|] == p.attempts
  {
  }

  lemma TryExtendsAttempts(p: Progress, setup: bool, job: Job)
    requires !AllCaptured(p.attempts)
    ensures !AllCaptured(Try(p, setup, job).attempts)
  {
    var k :| 0 <= k < |p.attempts| && p.attempts[k] != Captured;
    assert Try(p, setup, job).attempts[k] == p.attempts[k];
  }

  lemma InputsFail(s: State, c: Call)
    requires c.Produce? && c.source && !SetUp(c)
    ensures !AllCaptured(Inputs(s, c).attempts)
  {
    var p := Progress(s, [Captured]);
    var hudless := Try(p, c.hudless, SourceJob(s, c, 2));
    var alpha := Try(hudless, c.alpha, SourceJob(s, c, 3));
    if !c.hudless {
      TryFails(p, SourceJob(s, c, 2));
      TryExtendsAttempts(hudless, c.alpha, SourceJob(s, c, 3));
    } else if !c.alpha {
      TryFails(hudless, SourceJob(s, c, 3));
    } else {
      TryFails(alpha, SourceJob(s, c, 4));
    }
    if !AllCaptured(alpha.attempts) { TryExtendsAttempts(alpha, c.pqSetup, SourceJob(s, c, 4)); }
  }

  /** An input that cannot be set up ends the burst; when it is the source, nothing is recorded. */
  lemma FailureEnds(s: State, c: Call)
    requires c.Produce? && WellFormed(s) && Due(s, c) && !SetUp(c)
    ensures Step(s, c).state.remaining == 0
    ensures !c.source ==> Step(s, c) == Progress(s.(remaining := 0), [SetupFailed])
  {
    SourceKeeps(s, c);
    var r := Record(s, c.source, FrameSource(s, c));
    if c.source { InputsFail(Counted(r.0, c.frame), c); }
  }

  // --- A burst ---

  function AfterFrames(s: State, cs: seq<Call>, n: nat): (t: State)
    requires n <= |cs|
  {
    if n == 0 then s else Step(AfterFrames(s, cs, n - 1), cs[n - 1]).state
  }

  /** Producer calls for consecutive frames in one epoch, in time and with everything set up. */
  predicate Undisturbed(cs: seq<Call>, first: nat, epoch: nat)
  {
    forall i :: 0 <= i < |cs| ==> cs[i].Produce? && SetUp(cs[i]) && cs[i].frame == first + i && cs[i].epoch == epoch && !cs[i].late
  }

  predicate FramesHeld(jobs: seq<Job>, burst: nat, cs: seq<Call>, n: nat)
    requires n <= |cs|
  {
    forall i :: 0 <= i < n ==> cs[i].Produce? && FrameHeld(jobs, burst, i + 1, cs[i])
  }

  /** `n` frames of the burst that starts in `s` are captured. */
  predicate BurstAt(t: State, s: State, cs: seq<Call>, first: nat, n: nat)
    requires n <= |cs|
  {
    && WellFormed(t) && FramesHeld(t.jobs, s.burst, cs, n) && KeepsUsed(s.jobs, t.jobs) && n <= 4
    && t == s.(jobs := t.jobs, lastFrame := if n == 0 then 0 else first + n - 1, ordinal := n, remaining := 4 - n)
  }

  lemma NextCaptured(t: State, s: State, cs: seq<Call>, first: nat, n: nat)
    requires n < |cs| <= 4 && Undisturbed(cs, first, s.epoch) && first > 0 && BurstAt(t, s, cs, first, n)
    ensures BurstAt(Step(t, cs[n]).state, s, cs, first, n + 1)
  {
    FrameCaptured(t, cs[n]);
    var u := Step(t, cs[n]).state;
    forall i | 0 <= i < n + 1 ensures FrameHeld(u.jobs, s.burst, i + 1, cs[i]) {
      if i < n { HeldStays(t.jobs, u.jobs, s.burst, i + 1, cs[i]); }
    }
  }

  lemma {:induction false} FramesCaptured(s: State, cs: seq<Call>, first: nat, n: nat)
    requires BurstAt(s, s, cs, first, 0) && Undisturbed(cs, first, s.epoch) && first > 0 && n <= |cs| <= 4
    ensures BurstAt(AfterFrames(s, cs, n), s, cs, first, n)
  {
    if n > 0 {
      FramesCaptured(s, cs, first, n - 1);
      NextCaptured(AfterFrames(s, cs, n - 1), s, cs, first, n - 1);
    }
  }

  /**
    Pressing the key when no burst is running and fewer than four were captured starts one,
    and then four undisturbed frames have all their inputs captured; that ends the burst.
  */
  lemma BurstCaptured(s: State, epoch: nat, answers: nat -> Answer, cs: seq<Call>, first: nat)
    requires WellFormed(s) && !s.held && s.remaining == 0 && s.burst < 4
    requires |cs| == 4 && Undisturbed(cs, first, epoch) && first > 0
    ensures var armed := Step(s, Poll(true, epoch, answers)).state;
            armed.burst == s.burst + 1 && BurstAt(AfterFrames(armed, cs, |cs|), armed, cs, first, 4)
  {
    KeyArms(s, epoch, answers, cs, first);
    FramesCaptured(Step(s, Poll(true, epoch, answers)).state, cs, first, |cs|);
  }

  lemma KeyArms(s: State, epoch: nat, answers: nat -> Answer, cs: seq<Call>, first: nat)
    requires WellFormed(s) && !s.held && s.remaining == 0 && s.burst < 4
    ensures var armed := Step(s, Poll(true, epoch, answers)).state;
            armed.burst == s.burst + 1 && armed.epoch == epoch && BurstAt(armed, armed, cs, first, 0)
  {
    StepKeeps(s, Poll(true, epoch, answers));
  }

  /** The key starts a burst exactly when it was up before, none is running and fewer than four were begun. */
  lemma ArmedIff(s: State, down: bool, epoch: nat, answers: nat -> Answer)
    ensures var t := Step(s, Poll(down, epoch, answers)).state;
            && (t.burst == s.burst + 1 <==> down && !s.held && s.remaining == 0 && s.burst < 4)
            && (t.burst == s.burst || t.burst == s.burst + 1) && t.held == down
            && (t.burst == s.burst ==> t.remaining == s.remaining && t.ordinal == s.ordinal && t.lastFrame == s.lastFrame && t.epoch == s.epoch)
  {
  }

  /** What a producer call makes of the burst otherwise: too late, of another epoch or out of order it is over, and nothing is copied. */
  lemma BurstEnds(s: State, c: Call)
    requires c.Produce? && !Due(s, c)
    ensures var q := Step(s, c);
            && q.attempts == [] && q.state == s.(remaining := q.state.remaining)
            && q.state.remaining == if s.epoch == c.epoch && !c.late && c.frame == s.lastFrame then s.remaining else 0
  {
  }

  // --- The other copies of a frame ---

  /** A copy for a frame whose source is there, in a role not yet taken, is recorded with the source's burst and ordinal. */
  lemma BridgeCaptured(s: State, c: Call, i: nat)
    requires c.Bridge? && WellFormed(s) && c.role < 10 && c.setup
    requires i < |s.jobs| && IsSource(s.jobs[i], c.frame, c.epoch) && (forall k :: i < k < |s.jobs| ==> !IsSource(s.jobs[k], c.frame, c.epoch))
    requires forall k :: 0 <= k < |s.jobs| && Sibling(s.jobs[k], c.frame, c.epoch) ==> s.jobs[k].role != c.role
    ensures var q := Step(s, c);
            && q.attempts == [Captured] && KeepsUsed(s.jobs, q.state.jobs) && q.state == s.(jobs := q.state.jobs)
            && Job(Recorded, s.jobs[i].burst, s.jobs[i].ordinal, c.role, c.frame, c.epoch, c.list) in q.state.jobs
  {
    LastIs(s.jobs, c.frame, c.epoch, |s.jobs|, i);
    var j := Job(Recorded, s.jobs[i].burst, s.jobs[i].ordinal, c.role, c.frame, c.epoch, c.list);
    assert JobOk(s, s.jobs[i]);
    forall k | 0 <= k < |s.jobs| ensures PairOk(s.jobs[k], j) && PairOk(j, s.jobs[k]) {
      if k != i { assert PairOk(s.jobs[k], s.jobs[i]); }
      assert Sibling(s.jobs[k], c.frame, c.epoch) ==> s.jobs[k].role != c.role;
    }
    NeverFull(s, j);
    var t := s.jobs[FirstFree(s.jobs, 0) := j];
    assert t[FirstFree(s.jobs, 0)] == j;
  }

  /** Without a usable source of the frame, or for a role already taken, nothing is copied. */
  lemma BridgeRefuses(s: State, c: Call)
    requires c.Bridge?
    requires (forall k :: 0 <= k < |s.jobs| ==> !IsSource(s.jobs[k], c.frame, c.epoch)) ||
             (exists k :: 0 <= k < |s.jobs| && Sibling(s.jobs[k], c.frame, c.epoch) && s.jobs[k].role == c.role)
    ensures Step(s, c) == Progress(s, [])
  {
    assert LastSource(s.jobs, c.frame, c.epoch, |s.jobs|) == |s.jobs| || Duplicate(s.jobs, c.frame, c.epoch, c.role, |s.jobs|);
  }

  lemma {:induction false} LastIs(jobs: seq<Job>, frame: nat, epoch: nat, n: nat, i: nat)
    requires i < n <= |jobs| && IsSource(jobs[i], frame, epoch) && forall k :: i < k < |jobs| ==> !IsSource(jobs[k], frame, epoch)
    ensures LastSource(jobs, frame, epoch, n) == i
  {
    if i < n - 1 { LastIs(jobs, frame, epoch, n - 1, i); }
  }

  // --- From the copy to the file ---

  /** Job `f` is the first whose fence has passed. */
  predicate FirstPassed(jobs: seq<Job>, answers: nat -> Answer, f: nat)
  {
    && f < |jobs| && jobs[f].phase == Fenced && answers(f) == Passed
    && forall k: nat :: k < f ==> !(jobs[k].phase == Fenced && answers(k) == Passed)
  }

  /** What a poll makes of job `k`, given the first that passed, if any. */
  function Polled(j: Job, answer: Answer, before: bool, first: bool): Job
  {
    if j.phase != Fenced then j
    else if first then j.(phase := Writing)
    else if before && answer == Removed then j.(phase := Quarantined)
    else j
  }

  lemma {:induction false} ScanFrom(jobs: seq<Job>, answers: nat -> Answer, i: nat, f: nat)
    requires i <= f <= |jobs| && (forall k: nat :: i <= k < f ==> !(jobs[k].phase == Fenced && answers(k) == Passed))
    requires f < |jobs| ==> jobs[f].phase == Fenced && answers(f) == Passed
    ensures var r := Scan(jobs, answers, i);
            forall k: nat :: k < |jobs| ==> r[k] == if k < i then jobs[k] else Polled(jobs[k], answers(k), k < f, k == f)
    decreases |jobs| - i
  {
    if i < f {
      if jobs[i].phase != Fenced || answers(i) == Pending {
        ScanFrom(jobs, answers, i + 1, f);
      } else {
        ScanFrom(jobs[i := jobs[i].(phase := Quarantined)], answers, i + 1, f);
      }
    }
  }

  /** One poll starts writing the first job whose fence has passed, quarantines the lost ones before it, and leaves the rest. */
  lemma PollWrites(s: State, c: Call, f: nat)
    requires c.Poll? && FirstPassed(s.jobs, c.answers, f)
    ensures forall k: nat :: k < |s.jobs| ==> Step(s, c).state.jobs[k] == Polled(s.jobs[k], c.answers(k), k < f, k == f)
  {
    ScanFrom(s.jobs, c.answers, 0, f);
  }

  /** A recorded job whose list is executed and signalled, and whose fence is the first to pass, is written. */
  lemma JobFinishes(s: State, i: nat, lists: seq<nat>, down: bool, epoch: nat, answers: nat -> Answer)
    requires i < |s.jobs| && s.jobs[i].phase == Recorded && s.jobs[i].list in lists
    requires answers(i) == Passed && forall k: nat :: k < |s.jobs| && k != i ==> answers(k) == Pending
    ensures var submitted := Step(s, Execute(lists)).state;
            var fenced := Step(submitted, Signalled(i, true)).state;
            var writing := Step(fenced, Poll(down, epoch, answers)).state;
            var saved := Step(writing, Saved(i)).state;
            && submitted.jobs[i] == s.jobs[i].(phase := Submitting) && fenced.jobs[i] == s.jobs[i].(phase := Fenced)
            && writing.jobs[i] == s.jobs[i].(phase := Writing) && saved.jobs[i] == s.jobs[i].(phase := Done)
  {
    var submitted := Step(s, Execute(lists)).state;
    var fenced := Step(submitted, Signalled(i, true)).state;
    ScanFrom(fenced.jobs, answers, 0, i);
  }

  /** Both hooks move exactly the recorded jobs of their lists: on execution to be signalled, on a reset out of the way. */
  lemma ListsMove(s: State, list: nat, k: nat)
    requires k < |s.jobs|
    ensures var mine := s.jobs[k].phase == Recorded && s.jobs[k].list == list;
            && Step(s, Execute([list])).state.jobs[k] == (if mine then s.jobs[k].(phase := Submitting) else s.jobs[k])
            && Step(s, Reset(list, true)).state.jobs[k] == (if mine then s.jobs[k].(phase := Quarantined) else s.jobs[k])
            && Step(s, Reset(list, false)).state == s
  {
  }
}
