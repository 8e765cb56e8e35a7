/**
  Runs of the pixel capture: the table is exactly large enough, its jobs only
  move forward, and nothing is written before its fence
  (src/fg_pixel_capture.h:49-135).
*/
module PixelCaptureHistory {
  import opened PixelCapture

  datatype Entry = Entry(before: State, call: Call, attempts: seq<Attempt>, after: State)

  /** Bridge callers use the known roles. */
  predicate Allowed(c: Call) { c.Bridge? ==> c.role < ROLES }

  ghost predicate Follows(run: seq<Entry>, n: nat)
    requires n < |run|
  {
    && run[n].before == (if n == 0 then Initial() else run[n - 1].after)
    && Allowed(run[n].call)
    && Progress(run[n].after, run[n].attempts) == Step(run[n].before, run[n].call)
  }

  ghost predicate IsRun(run: seq<Entry>)
  {
    forall n :: 0 <= n < |run| ==> Follows(run, n)
  }

  function StateAt(run: seq<Entry>, n: nat): State
    requires n <= |run|
  {
    if n == 0 then Initial() else run[n - 1].after
  }

  // --- The invariant of every reachable table ---

  predicate Used(j: Job) { j.phase != Free }

  /** A used job has a key in range; one of the newest burst has the frame its ordinal says. */
  predicate JobOk(s: State, j: Job)
  {
    Used(j) ==>
      && 1 <= j.burst <= s.burst && 1 <= j.ordinal <= FRAMES && j.role < ROLES
      && (j.burst == s.burst ==> j.ordinal <= s.ordinal && j.epoch == s.epoch && j.frame + s.ordinal == s.lastFrame + j.ordinal)
  }

  /** Jobs of one burst share their epoch, have consecutive frames and never the same ordinal and role. */
  predicate PairOk(x: Job, y: Job)
  {
    Used(x) && Used(y) && x.burst == y.burst ==>
      && x.epoch == y.epoch && x.frame + y.ordinal == y.frame + x.ordinal
      && !(x.ordinal == y.ordinal && x.role == y.role)
  }

  predicate CountersOk(s: State)
  {
    s.burst <= BURSTS && s.ordinal <= FRAMES && (s.remaining > 0 ==> s.burst > 0 && s.ordinal + s.remaining == FRAMES)
  }

  predicate JobsOk(s: State)
  {
    forall i {:trigger JobOk(s, s.jobs[i])} :: 0 <= i < |s.jobs| ==> JobOk(s, s.jobs[i])
  }

  predicate PairsOk(jobs: seq<Job>)
  {
    forall i, k {:trigger PairOk(jobs[i], jobs[k])} :: 0 <= i < |jobs| && 0 <= k < |jobs| && i != k ==> PairOk(jobs[i], jobs[k])
  }

  predicate WellFormed(s: State)
  {
    |s.jobs| == JOBS && CountersOk(s) && JobsOk(s) && PairsOk(s.jobs)
  }

  // --- The table is never full ---

  /** One number below 160 for each role, burst and ordinal. */
  function Code(j: Job): int { j.role * 16 + (j.burst - 1) * 4 + (j.ordinal - 1) }

  predicate KeyOk(j: Job) { 1 <= j.burst <= BURSTS && 1 <= j.ordinal <= FRAMES && j.role < ROLES }

  lemma CodeDetermines(x: Job, y: Job)
    requires KeyOk(x) && KeyOk(y)
    ensures 0 <= Code(x) < JOBS
    ensures Code(x) == Code(y) <==> x.role == y.role && x.burst == y.burst && x.ordinal == y.ordinal
  {
  }

  lemma {:induction false} Pigeonhole(s: seq<int>, m: nat)
    requires forall i :: 0 <= i < |s| ==> 0 <= s[i] < m
    requires forall i, k :: 0 <= i < k < |s| ==> s[i] != s[k]
    ensures |s| <= m
  {
    if |s| > 0 {
      var first := s[0];
      if p :| 0 <= p < |s| && s[p] == m - 1 {
        var rest := s[..p] + s[p + 1..];
        forall i | 0 <= i < |rest| ensures 0 <= rest[i] < m - 1 {
          assert rest[i] == if i < p then s[i] else s[i + 1];
        }
        Pigeonhole(rest, m - 1);
      } else {
        Pigeonhole(s, m - 1);
      }
    }
  }

  /** A job that may be added: its key is in range and different from those of all used jobs. */
  predicate Addable(s: State, j: Job)
  {
    && Used(j) && JobOk(s, j)
    && forall i {:trigger PairOk(s.jobs[i], j)} :: 0 <= i < |s.jobs| ==> PairOk(s.jobs[i], j) && PairOk(j, s.jobs[i])
  }

  lemma CodesDiffer(s: State, j: Job, i: nat, k: nat)
    requires WellFormed(s) && Addable(s, j) && i < k <= JOBS && (forall n :: 0 <= n < JOBS ==> Used(s.jobs[n]))
    ensures Code(s.jobs[i]) != if k < JOBS then Code(s.jobs[k]) else Code(j)
  {
    var x, y := s.jobs[i], if k < JOBS then s.jobs[k] else j;
    assert PairOk(x, y) && JobOk(s, x) && JobOk(s, y);
    CodeDetermines(x, y);
  }

  /** Every key is taken when the table is full, so nothing more can be added to it. */
  lemma NeverFull(s: State, j: Job)
    requires WellFormed(s) && Addable(s, j)
    ensures FirstFree(s.jobs, 0) < JOBS
  {
    if forall n :: 0 <= n < JOBS ==> Used(s.jobs[n]) {
      var codes := seq(JOBS + 1, n requires 0 <= n <= JOBS => if n < JOBS then Code(s.jobs[n]) else Code(j));
      forall n | 0 <= n < |codes| ensures 0 <= codes[n] < JOBS {
        var x := if n < JOBS then s.jobs[n] else j;
        assert JobOk(s, x);
        CodeDetermines(x, x);
      }
      forall i, k | 0 <= i < k < |codes| ensures codes[i] != codes[k] {
        CodesDiffer(s, j, i, k);
      }
      Pigeonhole(codes, JOBS);
    }
  }

  lemma AddKeeps(s: State, setup: bool, j: Job)
    requires WellFormed(s) && Addable(s, j)
    ensures var (t, a) := Record(s, setup, j);
            && WellFormed(t) && a != TableFull && t == s.(jobs := t.jobs)
            && (t.jobs == s.jobs || exists i :: 0 <= i < JOBS && t.jobs == s.jobs[i := j] && !Used(s.jobs[i]))
  {
    NeverFull(s, j);
    var i := FirstFree(s.jobs, 0);
    if setup {
      var t := s.jobs[i := j];
      forall m, n | 0 <= m < JOBS && 0 <= n < JOBS && m != n ensures PairOk(t[m], t[n]) {
        if m != i && n != i {
          assert PairOk(s.jobs[m], s.jobs[n]);
        } else {
          assert PairOk(s.jobs[if m == i then n else m], j);
        }
      }
      forall n | 0 <= n < JOBS ensures JobOk(s.(jobs := t), t[n]) {
        if n != i { assert JobOk(s, s.jobs[n]); }
      }
    }
  }

  // --- Each call keeps the invariant ---

  /** The jobs of the newest frame have only roles below `k`. */
  predicate Below(s: State, k: nat)
  {
    forall i :: 0 <= i < |s.jobs| && Used(s.jobs[i]) && s.jobs[i].burst == s.burst && s.jobs[i].ordinal == s.ordinal ==>
      s.jobs[i].role < k
  }

  predicate NeverFullIn(attempts: seq<Attempt>)
  {
    forall k :: 0 <= k < |attempts| ==> attempts[k] != TableFull
  }

  /** The state and attempts of a call are as they should be. */
  predicate Good(p: Progress) { WellFormed(p.state) && NeverFullIn(p.attempts) }

  /** What holds between the attempts for one frame. */
  predicate InFrame(p: Progress, c: Call, k: nat)
    requires c.Produce?
  {
    && WellFormed(p.state) && p.state.burst > 0 && p.state.ordinal > 0 && Below(p.state, k)
    && p.state.epoch == c.epoch && p.state.lastFrame == c.frame && NeverFullIn(p.attempts)
  }

  lemma TryInput(p: Progress, setup: bool, c: Call, k: nat, role: nat)
    requires c.Produce? && InFrame(p, c, k) && k <= role < ROLES
    ensures InFrame(Try(p, setup, SourceJob(p.state, c, role)), c, role + 1)
    ensures Try(p, setup, SourceJob(p.state, c, role)).state.(jobs := []) == p.state.(jobs := [])
  {
    var s, j := p.state, SourceJob(p.state, c, role);
    forall i | 0 <= i < |s.jobs| ensures PairOk(s.jobs[i], j) && PairOk(j, s.jobs[i]) {
      assert JobOk(s, s.jobs[i]);
    }
    AddKeeps(s, setup, j);
  }

  lemma InputsKeep(s: State, c: Call)
    requires c.Produce? && InFrame(Progress(s, [Captured]), c, 1)
    ensures Good(Inputs(s, c))
  {
    var p := Progress(s, [Captured]);
    TryInput(p, c.hudless, c, 1, 2);
    var hudless := Try(p, c.hudless, SourceJob(s, c, 2));
    TryInput(hudless, c.alpha, c, 3, 3);
    var alpha := Try(hudless, c.alpha, SourceJob(s, c, 3));
    TryInput(alpha, c.pqSetup, c, 4, 4);
  }

  /** The counters may move on to the next frame of the burst. */
  lemma NextFrame(s: State, frame: nat)
    requires WellFormed(s) && s.remaining > 0 && (s.ordinal > 0 ==> frame == s.lastFrame + 1)
    ensures WellFormed(Counted(s, frame)) && Below(Counted(s, frame), 0)
  {
    var t := Counted(s, frame);
    forall i | 0 <= i < JOBS ensures JobOk(t, t.jobs[i]) && (Used(t.jobs[i]) && t.jobs[i].burst == t.burst ==> t.jobs[i].ordinal < t.ordinal) {
      assert JobOk(s, s.jobs[i]);
    }
  }

  lemma EndKeeps(s: State)
    requires WellFormed(s)
    ensures WellFormed(s.(remaining := 0))
  {
    var t := s.(remaining := 0);
    forall i | 0 <= i < JOBS ensures JobOk(t, t.jobs[i]) {
      assert JobOk(s, s.jobs[i]);
    }
  }

  /** Capturing the source of the next frame. */
  lemma SourceKeeps(s: State, c: Call)
    requires c.Produce? && WellFormed(s) && s.remaining > 0 && s.epoch == c.epoch
    requires s.ordinal > 0 ==> c.frame == s.lastFrame + 1
    ensures var r := Record(s, c.source, FrameSource(s, c));
            r.1 != TableFull && (r.1 == Captured ==> InFrame(Progress(Counted(r.0, c.frame), [Captured]), c, 1))
  {
    var next := Counted(s, c.frame);
    NextFrame(s, c.frame);
    TryInput(Progress(next, []), c.source, c, 0, 0);
    var p := Try(Progress(next, []), c.source, SourceJob(next, c, 0));
    assert p.attempts == [Record(next, c.source, SourceJob(next, c, 0)).1];
    assert p.attempts[0] != TableFull;
    assert Record(next, c.source, FrameSource(s, c)).0 == Counted(Record(s, c.source, FrameSource(s, c)).0, c.frame);
  }

  lemma FrameEndKeeps(p: Progress)
    requires Good(p)
    ensures Good(FrameEnd(p))
  {
    EndKeeps(p.state);
  }

  lemma FrameKeeps(s: State, c: Call)
    requires c.Produce? && WellFormed(s) && s.remaining > 0 && s.epoch == c.epoch
    requires s.ordinal > 0 ==> c.frame == s.lastFrame + 1
    ensures Good(FrameStep(s, c))
  {
    SourceKeeps(s, c);
    var r := Record(s, c.source, FrameSource(s, c));
    if r.1 == Captured {
      InputsKeep(Counted(r.0, c.frame), c);
      FrameEndKeeps(Inputs(Counted(r.0, c.frame), c));
    } else {
      EndKeeps(s);
    }
  }

  lemma ProduceKeeps(s: State, c: Call)
    requires c.Produce? && WellFormed(s)
    ensures Good(ProduceStep(s, c))
  {
    var e := Expire(s, c);
    EndKeeps(s);
    EndKeeps(e);
    if e.remaining > 0 && c.frame != e.lastFrame && (e.ordinal > 0 ==> c.frame == e.lastFrame + 1) {
      FrameKeeps(e, c);
    }
  }

  lemma BridgeKeeps(s: State, c: Call)
    requires c.Bridge? && c.role < ROLES && WellFormed(s)
    ensures Good(BridgeStep(s, c))
  {
    var i := LastSource(s.jobs, c.frame, c.epoch, |s.jobs|);
    if i < |s.jobs| && !Duplicate(s.jobs, c.frame, c.epoch, c.role, |s.jobs|) {
      var source := s.jobs[i];
      var j := Job(Recorded, source.burst, source.ordinal, c.role, c.frame, c.epoch, c.list);
      assert JobOk(s, source);
      forall k | 0 <= k < |s.jobs| ensures PairOk(s.jobs[k], j) && PairOk(j, s.jobs[k]) {
        if k != i { assert PairOk(s.jobs[k], source); }
        assert Sibling(s.jobs[k], c.frame, c.epoch) ==> s.jobs[k].role != c.role;
      }
      AddKeeps(s, c.setup, j);
    }
  }

  /** The same jobs in other phases. */
  predicate SameJobs(a: seq<Job>, b: seq<Job>)
  {
    && |a| == |b|
    && forall i :: 0 <= i < |a| ==> b[i] == a[i].(phase := b[i].phase) && (Used(a[i]) <==> Used(b[i]))
  }

  lemma PhasesKeep(s: State, jobs: seq<Job>)
    requires WellFormed(s) && SameJobs(s.jobs, jobs)
    ensures WellFormed(s.(jobs := jobs))
  {
    var t := s.(jobs := jobs);
    forall i | 0 <= i < JOBS ensures JobOk(t, t.jobs[i]) {
      assert JobOk(s, s.jobs[i]);
    }
    forall i, k | 0 <= i < JOBS && 0 <= k < JOBS && i != k ensures PairOk(jobs[i], jobs[k]) {
      assert PairOk(s.jobs[i], s.jobs[k]);
    }
  }

  lemma ArmKeeps(s: State, c: Call)
    requires c.Poll? && WellFormed(s)
    ensures WellFormed(Arm(s, c))
  {
    var t := Arm(s, c);
    forall i | 0 <= i < JOBS ensures JobOk(t, t.jobs[i]) {
      assert JobOk(s, s.jobs[i]);
    }
  }

  /** How one call may change the phase of a job. */
  predicate PhaseMoves(i: nat, c: Call, from: Phase, to: Phase)
  {
    || from == to
    || (from == Recorded && ((c.Execute? && to == Submitting) || (c.Reset? && to == Quarantined)))
    || (from == Submitting && c.Signalled? && c.index == i && to == if c.ok then Fenced else Quarantined)
    || (from == Fenced && c.Poll? && ((c.answers(i) == Passed && to == Writing) || (c.answers(i) == Removed && to == Quarantined)))
    || (from == Writing && c.Saved? && c.index == i && to == Done)
  }

  lemma {:induction false} ScanMoves(jobs: seq<Job>, c: Call, i: nat)
    requires c.Poll? && i <= |jobs|
    ensures var r := Scan(jobs, c.answers, i);
            && SameJobs(jobs, r)
            && (forall k :: 0 <= k < i ==> r[k] == jobs[k])
            && forall k :: 0 <= k < |jobs| ==> PhaseMoves(k, c, jobs[k].phase, r[k].phase)
    decreases |jobs| - i
  {
    if i < |jobs| {
      if jobs[i].phase != Fenced || c.answers(i) == Pending {
        ScanMoves(jobs, c, i + 1);
      } else if c.answers(i) == Removed {
        ScanMoves(jobs[i := jobs[i].(phase := Quarantined)], c, i + 1);
      }
    }
  }

  /** Calls that record nothing leave every job its identity and move its phase as allowed. */
  lemma OthersMove(s: State, c: Call)
    requires !c.Produce? && !c.Bridge?
    ensures var t := Step(s, c).state;
            SameJobs(s.jobs, t.jobs) && forall i :: 0 <= i < |s.jobs| ==> PhaseMoves(i, c, s.jobs[i].phase, t.jobs[i].phase)
  {
    if c.Poll? { ScanMoves(s.jobs, c, 0); }
  }

  lemma StepKeeps(s: State, c: Call)
    requires WellFormed(s) && Allowed(c)
    ensures Good(Step(s, c))
  {
    if c.Produce? {
      ProduceKeeps(s, c);
    } else if c.Bridge? {
      BridgeKeeps(s, c);
    } else {
      OthersMove(s, c);
      if c.Poll? {
        ArmKeeps(s, c);
        PhasesKeep(Arm(s, c), Step(s, c).state.jobs);
      } else {
        PhasesKeep(s, Step(s, c).state.jobs);
      }
    }
  }

  lemma {:induction false} AlwaysWellFormed(run: seq<Entry>, n: nat)
    requires IsRun(run) && n <= |run|
    ensures WellFormed(StateAt(run, n))
  {
    if n > 0 {
      AlwaysWellFormed(run, n - 1);
      assert Follows(run, n - 1);
      StepKeeps(run[n - 1].before, run[n - 1].call);
    }
  }

  /** In no run is a copy refused for want of a free job. */
  lemma TableNeverFull(run: seq<Entry>, n: nat)
    requires IsRun(run) && n < |run|
    ensures NeverFullIn(run[n].attempts)
  {
    AlwaysWellFormed(run, n);
    assert Follows(run, n);
    StepKeeps(run[n].before, run[n].call);
  }

  /** The captured frames of a burst are consecutive, of one epoch, and each input is captured once. */
  lemma BurstsConsistent(run: seq<Entry>, n: nat, i: nat, k: nat)
    requires IsRun(run) && n <= |run| && i < k < |StateAt(run, n).jobs|
    ensures var x, y := StateAt(run, n).jobs[i], StateAt(run, n).jobs[k];
            Used(x) && Used(y) && x.burst == y.burst ==>
              && x.epoch == y.epoch && x.frame - y.frame == x.ordinal - y.ordinal
              && !(x.ordinal == y.ordinal && x.role == y.role)
  {
    AlwaysWellFormed(run, n);
    assert PairOk(StateAt(run, n).jobs[i], StateAt(run, n).jobs[k]);
  }

  // --- Jobs only move forward ---

  function Rank(p: Phase): nat
  {
    match p
    case Free => 0
    case Recorded => 1
    case Submitting => 2
    case Fenced => 3
    case Writing => 4
    case Done => 5
    case Quarantined => 6
  }

  /** A used job keeps its identity and never goes back; a copy that completed is never quarantined. */
  predicate Forward(x: Job, y: Job)
  {
    Used(x) ==>
      && y == x.(phase := y.phase) && Rank(x.phase) <= Rank(y.phase)
      && (x.phase == Writing || x.phase == Done ==> y.phase != Quarantined)
  }

  predicate AllForward(a: seq<Job>, b: seq<Job>)
  {
    |a| == |b| && forall i :: 0 <= i < |a| ==> Forward(a[i], b[i])
  }

  /** Recording touches only free jobs. */
  predicate Extends(a: seq<Job>, b: seq<Job>)
  {
    |a| == |b| && forall i :: 0 <= i < |a| ==> b[i] == a[i] || (!Used(a[i]) && b[i].phase == Recorded)
  }

  lemma TryExtends(a: seq<Job>, p: Progress, setup: bool, job: Job)
    requires Extends(a, p.state.jobs) && job.phase == Recorded
    ensures Extends(a, Try(p, setup, job).state.jobs)
  {
  }

  lemma InputsExtend(a: seq<Job>, s: State, c: Call)
    requires c.Produce? && Extends(a, s.jobs)
    ensures Extends(a, Inputs(s, c).state.jobs)
  {
    var p := Progress(s, [Captured]);
    TryExtends(a, p, c.hudless, SourceJob(s, c, 2));
    var hudless := Try(p, c.hudless, SourceJob(s, c, 2));
    TryExtends(a, hudless, c.alpha, SourceJob(s, c, 3));
    TryExtends(a, Try(hudless, c.alpha, SourceJob(s, c, 3)), c.pqSetup, SourceJob(s, c, 4));
  }

  lemma RecordingExtends(s: State, c: Call)
    requires c.Produce? || c.Bridge?
    ensures Extends(s.jobs, Step(s, c).state.jobs)
  {
    if c.Produce? {
      var e := Expire(s, c);
      if e.remaining > 0 { FrameExtends(e, c); }
    }
  }

  lemma FrameExtends(s: State, c: Call)
    requires c.Produce? && s.remaining > 0
    ensures Extends(s.jobs, FrameStep(s, c).state.jobs)
  {
    var r := Record(s, c.source, FrameSource(s, c));
    InputsExtend(s.jobs, Counted(r.0, c.frame), c);
  }

  lemma StepForward(s: State, c: Call)
    ensures AllForward(s.jobs, Step(s, c).state.jobs)
  {
    if c.Produce? || c.Bridge? {
      RecordingExtends(s, c);
    } else {
      OthersMove(s, c);
    }
  }

  lemma {:induction false} NeverBack(run: seq<Entry>, m: nat, n: nat)
    requires IsRun(run) && m <= n <= |run|
    ensures AllForward(StateAt(run, m).jobs, StateAt(run, n).jobs)
  {
    if m < n {
      NeverBack(run, m, n - 1);
      assert Follows(run, n - 1);
      StepForward(run[n - 1].before, run[n - 1].call);
      var a, b, c := StateAt(run, m).jobs, StateAt(run, n - 1).jobs, StateAt(run, n).jobs;
      forall i | 0 <= i < |a| ensures Forward(a[i], c[i]) {
        assert Forward(a[i], b[i]) && Forward(b[i], c[i]);
      }
    }
  }

  // --- Nothing is written before its fence ---

  predicate Signals(c: Call, i: nat) { c.Signalled? && c.index == i && c.ok }

  predicate Completes(c: Call, i: nat) { c.Poll? && c.answers(i) == Passed }

  predicate PastFence(p: Phase) { p == Fenced || p == Writing || p == Done }

  lemma StepSignals(s: State, c: Call, i: nat)
    requires i < |s.jobs|
    ensures var x, y := s.jobs[i].phase, Step(s, c).state.jobs[i].phase;
            && (PastFence(y) ==> PastFence(x) || Signals(c, i))
            && (y == Writing || y == Done ==> x == Writing || x == Done || (x == Fenced && Completes(c, i)))
  {
    if c.Produce? || c.Bridge? {
      RecordingExtends(s, c);
    } else {
      OthersMove(s, c);
    }
  }

  lemma {:induction false} FencedWasSignalled(run: seq<Entry>, n: nat, i: nat) returns (a: nat)
    requires IsRun(run) && n <= |run| && i < |StateAt(run, n).jobs| && PastFence(StateAt(run, n).jobs[i].phase)
    ensures a < n && Signals(run[a].call, i)
  {
    if n > 0 {
      assert Follows(run, n - 1);
      StepForward(run[n - 1].before, run[n - 1].call);
      StepSignals(run[n - 1].before, run[n - 1].call, i);
      if Signals(run[n - 1].call, i) { a := n - 1; } else { a := FencedWasSignalled(run, n - 1, i); }
    }
  }

  /** A job is written to disk only after its list was submitted, its fence signalled and then seen to pass. */
  lemma {:induction false} WrittenAfterFence(run: seq<Entry>, n: nat, i: nat) returns (a: nat, b: nat)
    requires IsRun(run) && n <= |run| && i < |StateAt(run, n).jobs|
    requires StateAt(run, n).jobs[i].phase == Writing || StateAt(run, n).jobs[i].phase == Done
    ensures a < b < n && Signals(run[a].call, i) && Completes(run[b].call, i)
  {
    if n > 0 {
      var s, c := run[n - 1].before, run[n - 1].call;
      assert Follows(run, n - 1);
      StepForward(s, c);
      StepSignals(s, c, i);
      if s.jobs[i].phase == Fenced {
        b := n - 1;
        a := FencedWasSignalled(run, n - 1, i);
      } else {
        a, b := WrittenAfterFence(run, n - 1, i);
      }
    }
  }
}
