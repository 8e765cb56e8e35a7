/**
  The 160-entry job table of the pixel capture (src/fg_pixel_capture.h:13-147).

  The class keeps the table in an array; `Step` is the same behaviour on values.
  Each call is one region under the capture lock, inside which the alignment
  epoch does not change; what the device answers is a parameter.  A run is any
  sequence of such regions.
*/
module PixelCapture {

  const JOBS := 160
  const BURSTS := 4
  const FRAMES := 4
  const ROLES := 10

  datatype Phase = Free | Recorded | Submitting | Fenced | Writing | Done | Quarantined

  datatype Job = Job(phase: Phase, burst: nat, ordinal: nat, role: nat, frame: nat, epoch: nat, list: nat)

  const FREE_JOB := Job(Free, 0, 0, 0, 0, 0, 0)

  datatype State = State(jobs: seq<Job>, burst: nat, remaining: nat, ordinal: nat, epoch: nat, lastFrame: nat, held: bool)

  function NoJobs(): (jobs: seq<Job>)
    ensures |jobs| == JOBS && forall i :: 0 <= i < JOBS ==> jobs[i] == FREE_JOB
  {
    seq(JOBS, _ => FREE_JOB)
  }

  function Initial(): State { State(NoJobs(), 0, 0, 0, 0, 0, false) }

  /** How an attempt to record a copy ends. */
  datatype Attempt = Captured | SetupFailed | TableFull

  /** What the fence of a job says. */
  datatype Answer = Pending | Passed | Removed

  datatype Call =
    | Produce(list: nat, frame: nat, epoch: nat, late: bool, source: bool, hudless: bool, alpha: bool, pq: bool, pqSetup: bool)
    | Bridge(list: nat, frame: nat, role: nat, epoch: nat, setup: bool)
    | Poll(down: bool, epoch: nat, answers: nat -> Answer)
    | Saved(index: nat)
    | Execute(lists: seq<nat>)
    | Signalled(index: nat, ok: bool)
    | Reset(list: nat, ok: bool)

  /** The first free job at or after `i`; `|jobs|` when there is none. */
  function FirstFree(jobs: seq<Job>, i: nat): (r: nat)
    requires i <= |jobs|
    ensures i <= r <= |jobs| && (r < |jobs| ==> jobs[r].phase == Free)
    ensures forall k :: i <= k < r ==> jobs[k].phase != Free
    decreases |jobs| - i
  {
    if i == |jobs| || jobs[i].phase == Free then i else FirstFree(jobs, i + 1)
  }

  /** Recording one copy: a free job is found first, then everything that can fail is set up. */
  function Record(s: State, setup: bool, job: Job): (r: (State, Attempt))
    ensures |r.0.jobs| == |s.jobs| && r.0 == s.(jobs := r.0.jobs)
  {
    var i := FirstFree(s.jobs, 0);
    if i == |s.jobs| then (s, TableFull) else if !setup then (s, SetupFailed) else (s.(jobs := s.jobs[i := job]), Captured)
  }

  /** The state and the attempts made so far. */
  datatype Progress = Progress(state: State, attempts: seq<Attempt>)

  function Try(p: Progress, setup: bool, job: Job): (q: Progress)
    ensures |q.state.jobs| == |p.state.jobs|
  {
    var (t, a) := Record(p.state, setup, job);
    Progress(t, p.attempts + [a])
  }

  predicate AllCaptured(attempts: seq<Attempt>)
  {
    forall k :: 0 <= k < |attempts| ==> attempts[k] == Captured
  }

  /** A burst whose epoch passed, or that took too long, is over. */
  function Expire(s: State, c: Call): State
    requires c.Produce?
  {
    if s.remaining > 0 && (s.epoch != c.epoch || c.late) then s.(remaining := 0) else s
  }

  function SourceJob(s: State, c: Call, role: nat): Job
    requires c.Produce?
  {
    Job(Recorded, s.burst, s.ordinal, role, c.frame, c.epoch, c.list)
  }

  /** The other inputs of a frame whose source was captured. */
  function Inputs(s: State, c: Call): (p: Progress)
    requires c.Produce?
    ensures |p.state.jobs| == |s.jobs|
  {
    TagInput(Try(Try(Progress(s, [Captured]), c.hudless, SourceJob(s, c, 2)), c.alpha, SourceJob(s, c, 3)), c, SourceJob(s, c, 4))
  }

  function TagInput(p: Progress, c: Call, job: Job): (q: Progress)
    requires c.Produce?
    ensures |q.state.jobs| == |p.state.jobs|
  {
    if c.pq then Try(p, c.pqSetup, job) else p
  }

  function ProduceStep(s: State, c: Call): (p: Progress)
    requires c.Produce?
    ensures |p.state.jobs| == |s.jobs|
  {
    var e := Expire(s, c);
    if e.remaining == 0 || c.frame == e.lastFrame then Progress(e, [])
    else if e.ordinal > 0 && c.frame != e.lastFrame + 1 then Progress(e.(remaining := 0), [])
    else FrameStep(e, c)
  }

  /** The counters after the source of a frame was captured. */
  function Counted(s: State, frame: nat): State
    requires s.remaining > 0
  {
    s.(lastFrame := frame, ordinal := s.ordinal + 1, remaining := s.remaining - 1)
  }

  /** The source of the next frame. */
  function FrameSource(s: State, c: Call): Job
    requires c.Produce?
  {
    Job(Recorded, s.burst, s.ordinal + 1, 0, c.frame, c.epoch, c.list)
  }

  /** The next frame of the running burst; a failure ends the burst. */
  function FrameStep(s: State, c: Call): (p: Progress)
    requires c.Produce? && s.remaining > 0
    ensures |p.state.jobs| == |s.jobs|
  {
    AfterSource(s, c, Record(s, c.source, FrameSource(s, c)))
  }

  function AfterSource(s: State, c: Call, r: (State, Attempt)): (p: Progress)
    requires c.Produce? && r.0.remaining > 0 && |r.0.jobs| == |s.jobs|
    ensures |p.state.jobs| == |s.jobs|
  {
    if r.1 != Captured then Progress(s.(remaining := 0), [r.1]) else FrameEnd(Inputs(Counted(r.0, c.frame), c))
  }

  function FrameEnd(p: Progress): (q: Progress)
    ensures q.state.jobs == p.state.jobs
  {
    if AllCaptured(p.attempts) then p else p.(state := p.state.(remaining := 0))
  }

  predicate Sibling(j: Job, frame: nat, epoch: nat)
  {
    j.phase != Free && j.frame == frame && j.epoch == epoch
  }

  predicate IsSource(j: Job, frame: nat, epoch: nat)
  {
    Sibling(j, frame, epoch) && j.role == 0 && j.phase != Quarantined
  }

  /** The last usable source job of a frame among the first `n`; `n` when there is none. */
  function LastSource(jobs: seq<Job>, frame: nat, epoch: nat, n: nat): (r: nat)
    requires n <= |jobs|
    ensures r <= |jobs| && (r < |jobs| ==> IsSource(jobs[r], frame, epoch))
    ensures r == |jobs| ==> forall i :: 0 <= i < n ==> !IsSource(jobs[i], frame, epoch)
  {
    if n == 0 then |jobs| else if IsSource(jobs[n - 1], frame, epoch) then n - 1 else LastSource(jobs, frame, epoch, n - 1)
  }

  predicate Duplicate(jobs: seq<Job>, frame: nat, epoch: nat, role: nat, n: nat)
    requires n <= |jobs|
  {
    exists i :: 0 <= i < n && Sibling(jobs[i], frame, epoch) && jobs[i].role == role
  }

  function BridgeStep(s: State, c: Call): (p: Progress)
    requires c.Bridge?
    ensures |p.state.jobs| == |s.jobs|
  {
    var i := LastSource(s.jobs, c.frame, c.epoch, |s.jobs|);
    if i == |s.jobs| || s.jobs[i].burst == 0 || Duplicate(s.jobs, c.frame, c.epoch, c.role, |s.jobs|) then Progress(s, [])
    else Try(Progress(s, []), c.setup, Job(Recorded, s.jobs[i].burst, s.jobs[i].ordinal, c.role, c.frame, c.epoch, c.list))
  }

  /** The first fenced job that has completed starts being written; lost ones before it are quarantined. */
  function Scan(jobs: seq<Job>, answers: nat -> Answer, i: nat): (r: seq<Job>)
    requires i <= |jobs|
    ensures |r| == |jobs|
    decreases |jobs| - i
  {
    if i == |jobs| then jobs
    else if jobs[i].phase != Fenced || answers(i) == Pending then Scan(jobs, answers, i + 1)
    else if answers(i) == Removed then Scan(jobs[i := jobs[i].(phase := Quarantined)], answers, i + 1)
    else jobs[i := jobs[i].(phase := Writing)]
  }

  /** The hot key starts a burst unless one is running or all four are used up. */
  function Arm(s: State, c: Call): State
    requires c.Poll?
  {
    if c.down && !s.held && s.remaining == 0 && s.burst < BURSTS
    then s.(burst := s.burst + 1, ordinal := 0, remaining := FRAMES, epoch := c.epoch, lastFrame := 0, held := true)
    else s.(held := c.down)
  }

  /** Every recorded job of one of the lists goes to another phase. */
  function MoveRecorded(jobs: seq<Job>, lists: seq<nat>, phase: Phase): (r: seq<Job>)
    ensures |r| == |jobs|
  {
    seq(|jobs|, i requires 0 <= i < |jobs| =>
      if jobs[i].phase == Recorded && jobs[i].list in lists then jobs[i].(phase := phase) else jobs[i])
  }

  function MoveOne(jobs: seq<Job>, i: nat, from: Phase, to: Phase): (r: seq<Job>)
    ensures |r| == |jobs|
  {
    if i < |jobs| && jobs[i].phase == from then jobs[i := jobs[i].(phase := to)] else jobs
  }

  function Step(s: State, c: Call): (p: Progress)
    ensures |p.state.jobs| == |s.jobs|
  {
    match c
    case Produce(_, _, _, _, _, _, _, _, _) => ProduceStep(s, c)
    case Bridge(_, _, _, _, _) => BridgeStep(s, c)
    case Poll(_, _, answers) => Progress(Arm(s, c).(jobs := Scan(s.jobs, answers, 0)), [])
    case Saved(i) => Progress(s.(jobs := MoveOne(s.jobs, i, Writing, Done)), [])
    case Execute(lists) => Progress(s.(jobs := MoveRecorded(s.jobs, lists, Submitting)), [])
    case Signalled(i, ok) => Progress(s.(jobs := MoveOne(s.jobs, i, Submitting, if ok then Fenced else Quarantined)), [])
    case Reset(list, ok) => Progress(if ok then s.(jobs := MoveRecorded(s.jobs, [list], Quarantined)) else s, [])
  }

  // --- The table in place ---

  class Capture {
    const jobs: array<Job>
    var burst: nat
    var remaining: nat
    var ordinal: nat
    var epoch: nat
    var lastFrame: nat
    var held: bool

    constructor ()
      ensures fresh(jobs) && Valid() && Current() == Initial()
    {
      jobs := new Job[JOBS](_ => FREE_JOB);
      burst, remaining, ordinal, epoch, lastFrame, held := 0, 0, 0, 0, 0, false;
      new;
      assert jobs[..] == NoJobs();
    }

    ghost predicate Valid()
      reads this
    {
      jobs.Length == JOBS
    }

    function Current(): State
      reads this, jobs
    {
      State(jobs[..], burst, remaining, ordinal, epoch, lastFrame, held)
    }

    method RecordCopy(setup: bool, job: Job) returns (a: Attempt)
      requires Valid()
      modifies jobs
      ensures (Current(), a) == Record(old(Current()), setup, job)
    {
      var i := 0;
      while i < jobs.Length && jobs[i].phase != Free
        invariant 0 <= i <= jobs.Length && FirstFree(jobs[..], 0) == FirstFree(jobs[..], i)
      {
        i := i + 1;
      }
      if i == jobs.Length { return TableFull; }
      if !setup { return SetupFailed; }
      jobs[i] := job;
      return Captured;
    }

    method Producer(c: Call) returns (attempts: seq<Attempt>)
      requires Valid() && c.Produce?
      modifies this, jobs
      ensures Progress(Current(), attempts) == ProduceStep(old(Current()), c)
    {
      if remaining > 0 && (epoch != c.epoch || c.late) { remaining := 0; }
      if remaining == 0 || c.frame == lastFrame { return []; }
      if ordinal > 0 && c.frame != lastFrame + 1 { remaining := 0; return []; }
      attempts := CaptureFrame(c);
    }

    method CaptureFrame(c: Call) returns (attempts: seq<Attempt>)
      requires Valid() && c.Produce? && remaining > 0
      modifies this, jobs
      ensures Progress(Current(), attempts) == FrameStep(old(Current()), c)
    {
      var a := RecordCopy(c.source, Job(Recorded, burst, ordinal + 1, 0, c.frame, c.epoch, c.list));
      if a != Captured { remaining := 0; return [a]; }
      CountFrame(c.frame);
      attempts := CaptureInputs(c);
    }

    method CountFrame(frame: nat)
      requires remaining > 0
      modifies this`lastFrame, this`ordinal, this`remaining
      ensures Current() == Counted(old(Current()), frame)
    {
      lastFrame, ordinal, remaining := frame, ordinal + 1, remaining - 1;
    }

    method CaptureInputs(c: Call) returns (attempts: seq<Attempt>)
      requires Valid() && c.Produce?
      modifies this, jobs
      ensures Progress(Current(), attempts) == FrameEnd(Inputs(old(Current()), c))
    {
      attempts := OtherInputs(c);
      if !AllCaptured(attempts) { remaining := 0; }
    }

    method OtherInputs(c: Call) returns (attempts: seq<Attempt>)
      requires Valid() && c.Produce?
      modifies jobs
      ensures Progress(Current(), attempts) == Inputs(old(Current()), c)
    {
      attempts := [Captured];
      var a := RecordCopy(c.hudless, Job(Recorded, burst, ordinal, 2, c.frame, c.epoch, c.list));
      attempts := attempts + [a];
      a := RecordCopy(c.alpha, Job(Recorded, burst, ordinal, 3, c.frame, c.epoch, c.list));
      attempts := attempts + [a];
      if c.pq {
        a := RecordCopy(c.pqSetup, Job(Recorded, burst, ordinal, 4, c.frame, c.epoch, c.list));
        attempts := attempts + [a];
      }
    }

    method BridgeCopy(c: Call) returns (attempts: seq<Attempt>)
      requires Valid() && c.Bridge?
      modifies jobs
      ensures Progress(Current(), attempts) == BridgeStep(old(Current()), c)
    {
      var found, duplicate := jobs.Length, false;
      var i := 0;
      while i < jobs.Length
        invariant 0 <= i <= jobs.Length && found == LastSource(jobs[..], c.frame, c.epoch, i)
        invariant duplicate <==> Duplicate(jobs[..], c.frame, c.epoch, c.role, i)
      {
        if Sibling(jobs[i], c.frame, c.epoch) {
          if jobs[i].role == 0 && jobs[i].phase != Quarantined { found := i; }
          if jobs[i].role == c.role { duplicate := true; }
        }
        i := i + 1;
      }
      if found == jobs.Length || jobs[found].burst == 0 || duplicate { return []; }
      var a := RecordCopy(c.setup, Job(Recorded, jobs[found].burst, jobs[found].ordinal, c.role, c.frame, c.epoch, c.list));
      return [a];
    }

    method PollKeyAndFences(c: Call)
      requires Valid() && c.Poll?
      modifies this, jobs
      ensures Current() == Step(old(Current()), c).state
    {
      if c.down && !held && remaining == 0 && burst < BURSTS {
        burst, ordinal, remaining, epoch, lastFrame := burst + 1, 0, FRAMES, c.epoch, 0;
      }
      held := c.down;
      ScanFences(c.answers);
    }

    method ScanFences(answers: nat -> Answer)
      requires Valid()
      modifies jobs
      ensures jobs[..] == Scan(old(jobs[..]), answers, 0)
    {
      var i := 0;
      while i < jobs.Length
        invariant 0 <= i <= jobs.Length
        invariant Scan(old(jobs[..]), answers, 0) == Scan(jobs[..], answers, i)
      {
        if jobs[i].phase == Fenced && answers(i) != Pending {
          ghost var now := jobs[..];
          var phase := if answers(i) == Removed then Quarantined else Writing;
          jobs[i] := jobs[i].(phase := phase);
          assert jobs[..] == now[i := now[i].(phase := phase)];
          if phase == Writing { return; }
        }
        i := i + 1;
      }
    }

    /** One job goes on to its next phase. */
    method Advance(i: nat, from: Phase, to: Phase)
      requires Valid() && i < jobs.Length
      modifies jobs
      ensures jobs[..] == MoveOne(old(jobs[..]), i, from, to)
    {
      if jobs[i].phase == from { jobs[i] := jobs[i].(phase := to); }
    }

    /** Both hooks: the recorded jobs of the lists go to another phase. */
    method MoveLists(lists: seq<nat>, phase: Phase)
      requires Valid()
      modifies jobs
      ensures Current() == old(Current()).(jobs := MoveRecorded(old(jobs[..]), lists, phase))
    {
      var i := 0;
      while i < jobs.Length
        invariant 0 <= i <= jobs.Length
        invariant forall k :: 0 <= k < i ==> jobs[k] == MoveRecorded(old(jobs[..]), lists, phase)[k]
        invariant forall k :: i <= k < jobs.Length ==> jobs[k] == old(jobs[..])[k]
      {
        if jobs[i].phase == Recorded {
          var k := 0;
          while k < |lists| && jobs[i].list != lists[k]
            invariant 0 <= k <= |lists| && jobs[i].list !in lists[..k]
          {
            k := k + 1;
          }
          if k < |lists| { jobs[i] := jobs[i].(phase := phase); }
        }
        i := i + 1;
      }
      assert jobs[..] == MoveRecorded(old(jobs[..]), lists, phase);
    }
  }
}
