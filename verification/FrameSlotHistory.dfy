/**
  Runs of the frame-slot allocator: what holds after any sequence of calls
  (src/rr_frame_slots.h:26-78).
*/
module FrameSlotHistory {
  import opened FrameSlots

  datatype Entry = Entry(before: State, call: Call, outcome: Outcome, after: State)

  predicate Follows(run: seq<Entry>, n: nat)
    requires n < |run|
  {
    && run[n].before == (if n == 0 then INITIAL else run[n - 1].after)
    && (run[n].after, run[n].outcome) == Step(run[n].before, run[n].call)
  }

  /** Any sequence of calls on a fresh allocator, with what it did. */
  predicate IsRun(run: seq<Entry>)
  {
    forall n :: 0 <= n < |run| ==> Follows(run, n)
  }

  function StateAt(run: seq<Entry>, n: nat): State
    requires n <= |run|
  {
    if n == 0 then INITIAL else run[n - 1].after
  }

  // --- The invariant of every reachable state ---

  /** `a` was leased no later than `b`: an older epoch, or an older or equal frame of the same. */
  predicate AtMost(a: FrameKey, b: FrameKey) { a.epoch < b.epoch || (a.epoch == b.epoch && a.frame <= b.frame) }

  predicate Less(a: FrameKey, b: FrameKey) { a.epoch < b.epoch || (a.epoch == b.epoch && a.frame < b.frame) }

  predicate SlotOk(s: State, x: Slot)
  {
    && x.serial <= s.serial
    && (x.state != Free ==> x.serial != 0 && AtMost(x.key, s.latest) && s.fence.fence != 0)
    && (x.state == Submitted ==> s.completed < x.fenceValue <= s.lastSignal)
    && (x.state == Ready || x.state == Submitted || x.state == Retained ==> x.commands)
  }

  /** Two slots never share a lease, nor, in use, a key or a fence value. */
  predicate PairOk(x: Slot, y: Slot)
  {
    && (x.serial == y.serial ==> x.serial == 0)
    && (x.state != Free && y.state != Free ==> Less(x.key, y.key) || Less(y.key, x.key))
    && (x.state == Submitted && y.state == Submitted ==> x.fenceValue != y.fenceValue)
  }

  predicate WellFormed(s: State)
  {
    && |s.slots| == 3
    && s.completed <= s.lastSignal < MAX64
    && SlotOk(s, s.slots[0]) && SlotOk(s, s.slots[1]) && SlotOk(s, s.slots[2])
    && PairOk(s.slots[0], s.slots[1]) && PairOk(s.slots[0], s.slots[2]) && PairOk(s.slots[1], s.slots[2])
  }

  /** In use, every key is older than the next one that may be leased, so the scan for a duplicate finds none. */
  lemma DuplicateScanSilent(s: State, key: FrameKey)
    requires WellFormed(s) && InSequence(s.latest, key)
    ensures !InUse(s.slots, key)
  {
    forall i | 0 <= i < 3 ensures SlotOk(s, s.slots[i]) {}
  }

  lemma ChangeSlot(s: State, t: State, i: nat, x: Slot)
    requires WellFormed(s) && i < 3 && t.slots == s.slots[i := x]
    requires t.completed == s.completed && t.lastSignal == s.lastSignal && t.serial == s.serial
    requires t.latest == s.latest && t.fence == s.fence
    requires x.serial == s.slots[i].serial && x.key == s.slots[i].key
    requires x.state != Submitted && SlotOk(s, x)
    requires s.slots[i].state != Free
    ensures WellFormed(t)
  {
  }

  lemma BindWellFormed(s: State, key: FenceKey)
    requires WellFormed(s)
    ensures WellFormed(BindStep(s, key).0)
  {
  }

  lemma CollectWellFormed(s: State, key: FenceKey, completed: U64)
    requires WellFormed(s)
    ensures WellFormed(CollectStep(s, key, completed).0)
  {
  }

  lemma LeaseWellFormed(s: State, key: FrameKey)
    requires WellFormed(s)
    ensures WellFormed(BeginStep(s, key).0)
  {
  }

  lemma SubmitWellFormed(s: State, l: Lease, value: U64)
    requires WellFormed(s)
    ensures WellFormed(SubmitStep(s, l, value).0)
  {
    var (t, ok) := SubmitStep(s, l, value);
    if ok {
      forall k | 0 <= k < 3 ensures SlotOk(t, t.slots[k]) {
        assert SlotOk(s, s.slots[k]);
      }
    } else if t != s {
      ChangeSlot(s, t, l.index, s.slots[l.index].(state := Retained));
    }
  }

  lemma StepWellFormed(s: State, c: Call)
    requires WellFormed(s)
    ensures WellFormed(Step(s, c).0)
  {
    match c
    case Bind(fence) => BindWellFormed(s, fence);
    case Collect(fence, completed) => CollectWellFormed(s, fence, completed);
    case Begin(key) => LeaseWellFormed(s, key);
    case CommandsStarted(l) =>
      if CommandsStep(s, l).1 { ChangeSlot(s, CommandsStep(s, l).0, l.index, s.slots[l.index].(commands := true)); }
    case GuidesReady(l) =>
      if GuidesStep(s, l).1 { ChangeSlot(s, GuidesStep(s, l).0, l.index, s.slots[l.index].(state := Ready)); }
    case TakeEvaluation(l, current) =>
      if EvaluationStep(s, l, current).1 {
        ChangeSlot(s, EvaluationStep(s, l, current).0, l.index, s.slots[l.index].(evaluationTaken := true));
      }
    case Submit(l, value) => SubmitWellFormed(s, l, value);
    case Abort(l) =>
      if AbortStep(s, l).1 {
        var state := if s.slots[l.index].commands then Retained else Free;
        ChangeSlot(s, AbortStep(s, l).0, l.index, s.slots[l.index].(state := state));
      }
  }

  /**
    In every reachable state each submitted slot waits for a distinct fence value
    above the last completed and no later than the last signalled, slots in use
    hold distinct keys no newer than the newest, and no lease is held twice.
  */
  lemma {:induction false} AlwaysWellFormed(run: seq<Entry>, n: nat)
    requires IsRun(run) && n <= |run|
    ensures WellFormed(StateAt(run, n))
  {
    if n > 0 {
      AlwaysWellFormed(run, n - 1);
      assert Follows(run, n - 1);
      StepWellFormed(run[n - 1].before, run[n - 1].call);
    }
  }

  // --- Stale leases ---

  predicate UsesLease(c: Call, l: Lease)
  {
    match c
    case CommandsStarted(x) => x == l
    case GuidesReady(x) => x == l
    case TakeEvaluation(x, _) => x == l
    case Submit(x, _) => x == l
    case Abort(x) => x == l
    case _ => false
  }

  /** A lease that no longer matches its slot is refused and changes nothing. */
  lemma StaleRefused(s: State, c: Call, l: Lease)
    requires UsesLease(c, l) && !Matches(s.slots, l)
    ensures Step(s, c) == (s, Outcome(false, NO_LEASE))
  {
  }

  /** Leases are never reissued, and slots never go back to an older lease. */
  lemma SerialsGrow(s: State, c: Call, k: nat)
    requires WellFormed(s) && k < 3
    ensures var (t, r) := Step(s, c);
            && |t.slots| == 3 && s.serial <= t.serial
            && s.slots[k].serial <= t.slots[k].serial
            && (c.Begin? && r.ok ==> r.lease.index < 3 && r.lease.serial == t.serial == s.serial + 1 &&
                                      t.slots[r.lease.index].serial == t.serial)
  {
    StepWellFormed(s, c);
  }

  lemma {:induction false} SlotSerialAtLeast(run: seq<Entry>, k: nat, serial: U64, j: nat, m: nat)
    requires IsRun(run) && j <= m <= |run| && k < 3
    requires |StateAt(run, j).slots| == 3 && StateAt(run, j).slots[k].serial >= serial
    ensures |StateAt(run, m).slots| == 3 && StateAt(run, m).slots[k].serial >= serial
    decreases m
  {
    if m > j {
      SlotSerialAtLeast(run, k, serial, j, m - 1);
      AlwaysWellFormed(run, m - 1);
      assert Follows(run, m - 1);
      SerialStays(run[m - 1].before, run[m - 1].call, k, serial);
    }
  }

  lemma SerialStays(s: State, c: Call, k: nat, serial: U64)
    requires WellFormed(s) && k < 3 && s.slots[k].serial >= serial
    ensures var t := Step(s, c).0; |t.slots| == 3 && t.slots[k].serial >= serial
  {
    SerialsGrow(s, c, k);
  }

  /** `run[i]` leases slot `k`. */
  predicate Leases(e: Entry, k: nat) { e.call.Begin? && e.outcome.ok && e.outcome.lease.index == k }

  lemma SerialsIncrease(run: seq<Entry>, i: nat, j: nat)
    requires IsRun(run) && i < j < |run|
    requires run[i].call.Begin? && run[i].outcome.ok && run[j].call.Begin? && run[j].outcome.ok
    ensures run[i].outcome.lease.serial < run[j].outcome.lease.serial
  {
    AlwaysWellFormed(run, i);
    AlwaysWellFormed(run, j);
    assert Follows(run, i) && Follows(run, j);
    SerialsGrow(run[i].before, run[i].call, run[i].outcome.lease.index);
    SerialsGrow(run[j].before, run[j].call, 0);
    var k := run[i].outcome.lease.index;
    SlotSerialAtLeast(run, k, run[i].outcome.lease.serial, i + 1, j);
    assert SlotOk(run[j].before, run[j].before.slots[k]);
  }

  /** Once its slot has been leased again, a lease is refused for good and changes nothing. */
  lemma StaleForever(run: seq<Entry>, i: nat, j: nat, m: nat)
    requires IsRun(run) && i < j < m < |run|
    requires run[i].call.Begin? && run[i].outcome.ok && Leases(run[j], run[i].outcome.lease.index)
    requires UsesLease(run[m].call, run[i].outcome.lease)
    ensures !run[m].outcome.ok && run[m].after == run[m].before
  {
    var l := run[i].outcome.lease;
    SerialsIncrease(run, i, j);
    AlwaysWellFormed(run, j);
    assert Follows(run, j) && Follows(run, m);
    SerialsGrow(run[j].before, run[j].call, 0);
    SlotSerialAtLeast(run, l.index, run[j].outcome.lease.serial, j + 1, m);
    StaleRefused(run[m].before, run[m].call, l);
  }

  // --- Retained slots ---

  lemma RetainedStays(s: State, c: Call, k: nat)
    requires WellFormed(s) && k < 3 && s.slots[k].state == Retained
    ensures var (t, r) := Step(s, c);
            |t.slots| == 3 && t.slots[k] == s.slots[k] && t.fence == s.fence && !Leases(Entry(s, c, r, t), k)
  {
    match c
    case Bind(_) =>
    case Collect(_, _) =>
    case Begin(_) =>
    case CommandsStarted(_) =>
    case GuidesReady(_) =>
    case TakeEvaluation(_, _) =>
    case Submit(_, _) =>
    case Abort(_) =>
  }

  /** A retained slot stays as it is, and is never leased again. */
  lemma {:induction false} RetainedForever(run: seq<Entry>, n: nat, m: nat, k: nat)
    requires IsRun(run) && n <= m < |run| && k < 3
    requires |StateAt(run, n).slots| == 3 && StateAt(run, n).slots[k].state == Retained
    ensures |run[m].after.slots| == 3 && run[m].after.slots[k] == StateAt(run, n).slots[k] && !Leases(run[m], k)
    decreases m
  {
    if m > n { RetainedForever(run, n, m - 1, k); }
    AlwaysWellFormed(run, m);
    assert Follows(run, m);
    RetainedStays(run[m].before, run[m].call, k);
    assert run[m] == Entry(run[m].before, run[m].call, run[m].outcome, run[m].after);
  }

  // --- Reuse of a slot that recorded commands ---

  /** Call `p` submits the lease with fence value `v`. */
  predicate Submits(e: Entry, l: Lease, v: U64)
  {
    e.call == Submit(l, v) && e.outcome.ok
  }

  /** Call `q` observes that the fence bound at call `p` has reached `v`. */
  predicate Observes(run: seq<Entry>, p: nat, q: nat, v: U64)
    requires p < |run| && q < |run|
  {
    && run[q].call.Collect? && run[q].outcome.ok && run[q].call.completed >= v
    && run[q].call.fence == run[p].before.fence
  }

  ghost predicate WaitsFor(run: seq<Entry>, l: Lease, m: nat, n: nat, v: U64, fence: FenceKey)
    requires n <= |run|
  {
    exists p :: m < p < n && Submits(run[p], l, v) && run[p].before.fence == fence
  }

  ghost predicate Released(run: seq<Entry>, l: Lease, m: nat, n: nat)
    requires n <= |run|
  {
    exists p, q :: m < p < q < n && run[p].call.Submit? && Submits(run[p], l, run[p].call.value) &&
                   Observes(run, p, q, run[p].call.value)
  }

  // How far a lease with recorded commands has come, as the slot shows it.
  ghost predicate Progress(run: seq<Entry>, l: Lease, m: nat, n: nat, s: State)
    requires n <= |run| && l.index < |s.slots|
  {
    var x := s.slots[l.index];
    && x.serial == l.serial
    && match x.state
       case Recording => x.commands
       case Ready => x.commands
       case Retained => true
       case Submitted => WaitsFor(run, l, m, n, x.fenceValue, s.fence)
       case Free => Released(run, l, m, n)
  }

  /** One call, seen from a slot in use: the slot moves on, or a fence value is awaited or met. */
  lemma SlotMoves(s: State, c: Call, l: Lease)
    requires WellFormed(s) && l.index < 3 && s.slots[l.index].serial == l.serial != 0
    requires s.slots[l.index].state != Free && s.slots[l.index].commands
    ensures var (t, r) := Step(s, c);
            && |t.slots| == 3 && t.fence == s.fence
            && var x, y := s.slots[l.index], t.slots[l.index];
               && y.serial == l.serial && y.commands
               && (y.state == Free ==>
                     x.state == Submitted && c.Collect? && r.ok && c.completed >= x.fenceValue && c.fence == s.fence)
               && (y.state == Submitted ==> x == y || Submits(Entry(s, c, r, t), l, y.fenceValue))
  {
    match c
    case Bind(_) =>
    case Collect(_, _) =>
    case Begin(_) =>
    case CommandsStarted(_) =>
    case GuidesReady(_) =>
    case TakeEvaluation(_, _) =>
    case Submit(x, _) => assert Matches(s.slots, x) && x.index == l.index ==> x == l;
    case Abort(_) =>
  }

  lemma ReleasedLasts(run: seq<Entry>, l: Lease, m: nat, n: nat)
    requires n < |run|
    ensures Released(run, l, m, n) ==> Released(run, l, m, n + 1)
    ensures forall v: U64, fence :: WaitsFor(run, l, m, n, v, fence) ==> WaitsFor(run, l, m, n + 1, v, fence)
  {
    if Released(run, l, m, n) {
      var p, q :| m < p < q < n && run[p].call.Submit? && Submits(run[p], l, run[p].call.value) &&
                  Observes(run, p, q, run[p].call.value);
      assert Observes(run, p, q, run[p].call.value);
    }
    forall v: U64, fence | WaitsFor(run, l, m, n, v, fence) ensures WaitsFor(run, l, m, n + 1, v, fence) {
      var p :| m < p < n && Submits(run[p], l, v) && run[p].before.fence == fence;
      assert Submits(run[p], l, v);
    }
  }

  lemma ProgressNext(run: seq<Entry>, l: Lease, m: nat, n: nat)
    requires IsRun(run) && m < n < |run| && l.index < 3 && l.serial != 0
    requires WellFormed(run[n].before) && Progress(run, l, m, n, run[n].before)
    requires run[n].before.slots[l.index].state != Free
    ensures |run[n].after.slots| == 3 && Progress(run, l, m, n + 1, run[n].after)
  {
    assert Follows(run, n);
    var s, c := run[n].before, run[n].call;
    SlotMoves(s, c, l);
    ReleasedLasts(run, l, m, n);
    var x, y := s.slots[l.index], run[n].after.slots[l.index];
    if y.state == Submitted && x != y {
      assert Submits(run[n], l, y.fenceValue);
    } else if y.state == Free {
      var p :| m < p < n && Submits(run[p], l, x.fenceValue) && run[p].before.fence == s.fence;
      assert Observes(run, p, n, run[p].call.value);
    }
  }

  /** A free slot stays free until it is leased. */
  lemma FreeStays(s: State, c: Call, k: nat)
    requires WellFormed(s) && k < 3 && s.slots[k].state == Free
    ensures var (t, r) := Step(s, c);
            |t.slots| == 3 && (!Leases(Entry(s, c, r, t), k) ==> t.slots[k] == s.slots[k])
  {
    match c
    case Bind(_) =>
    case Collect(_, _) =>
    case Begin(_) =>
    case CommandsStarted(_) =>
    case GuidesReady(_) =>
    case TakeEvaluation(_, _) =>
    case Submit(_, _) =>
    case Abort(_) =>
  }

  lemma {:induction false} ProgressKept(run: seq<Entry>, l: Lease, m: nat, n: nat)
    requires IsRun(run) && m < n <= |run| && l.index < 3 && l.serial != 0
    requires run[m].call == CommandsStarted(l) && run[m].outcome.ok
    requires forall k :: m < k < n ==> !Leases(run[k], l.index)
    ensures |StateAt(run, n).slots| == 3 && Progress(run, l, m, n, StateAt(run, n))
    decreases n
  {
    AlwaysWellFormed(run, n - 1);
    assert Follows(run, n - 1);
    if n > m + 1 {
      ProgressKept(run, l, m, n - 1);
      var s := run[n - 1].before;
      if s.slots[l.index].state == Free {
        FreeStays(s, run[n - 1].call, l.index);
        assert run[n - 1] == Entry(s, run[n - 1].call, run[n - 1].outcome, run[n - 1].after);
        assert !Leases(run[n - 1], l.index);
        ReleasedLasts(run, l, m, n - 1);
      } else {
        ProgressNext(run, l, m, n - 1);
      }
    }
  }

  /**
    A slot whose lease recorded commands is leased again only after that lease was
    submitted with some value and a later collection on the same fence reported at
    least that value.
  */
  lemma ReuseWaitsForFence(run: seq<Entry>, i: nat, m: nat, j: nat)
    requires IsRun(run) && i < m < j < |run|
    requires run[i].call.Begin? && run[i].outcome.ok
    requires run[m].call == CommandsStarted(run[i].outcome.lease) && run[m].outcome.ok
    requires Leases(run[j], run[i].outcome.lease.index)
    requires forall k :: m < k < j ==> !Leases(run[k], run[i].outcome.lease.index)
    ensures Released(run, run[i].outcome.lease, m, j)
  {
    var l := run[i].outcome.lease;
    AlwaysWellFormed(run, i);
    assert Follows(run, i) && Follows(run, j);
    SerialsGrow(run[i].before, run[i].call, 0);
    ProgressKept(run, l, m, j);
  }

  // --- One fence binding ---

  /** A call that binds another fence and so starts afresh. */
  predicate Rebinds(e: Entry) { e.call.Bind? && e.after.fence != e.before.fence }

  predicate SameBinding(run: seq<Entry>, i: nat, j: nat)
    requires i <= j <= |run|
  {
    forall k :: i <= k < j ==> !Rebinds(run[k])
  }

  lemma LatestGrows(s: State, c: Call)
    ensures var (t, r) := Step(s, c);
            && (!Rebinds(Entry(s, c, r, t)) ==> AtMost(s.latest, t.latest))
            && (c.Begin? && r.ok ==> t.latest == c.key && Less(s.latest, c.key))
  {
    match c
    case Bind(_) =>
    case Collect(_, _) =>
    case Begin(_) =>
    case CommandsStarted(_) =>
    case GuidesReady(_) =>
    case TakeEvaluation(_, _) =>
    case Submit(_, _) =>
    case Abort(_) =>
  }

  lemma {:induction false} LatestMonotone(run: seq<Entry>, i: nat, j: nat)
    requires IsRun(run) && i <= j <= |run| && SameBinding(run, i, j)
    ensures AtMost(StateAt(run, i).latest, StateAt(run, j).latest)
    decreases j
  {
    if j > i {
      LatestMonotone(run, i, j - 1);
      assert Follows(run, j - 1);
      LatestGrows(run[j - 1].before, run[j - 1].call);
      assert run[j - 1] == Entry(run[j - 1].before, run[j - 1].call, run[j - 1].outcome, run[j - 1].after);
      assert !Rebinds(run[j - 1]);
    }
  }

  /** Within one binding, leased keys strictly increase in epoch and frame. */
  lemma LeasedKeysIncrease(run: seq<Entry>, i: nat, j: nat)
    requires IsRun(run) && i < j < |run| && SameBinding(run, i, j)
    requires run[i].call.Begin? && run[i].outcome.ok && run[j].call.Begin? && run[j].outcome.ok
    ensures Less(run[i].call.key, run[j].call.key)
  {
    assert Follows(run, i) && Follows(run, j);
    LatestGrows(run[i].before, run[i].call);
    LatestGrows(run[j].before, run[j].call);
    LatestMonotone(run, i + 1, j);
  }

  // A key was evaluated: it is not newer than the newest, and any slot still holding it is marked.
  predicate Evaluated(s: State, key: FrameKey)
  {
    && |s.slots| == 3 && AtMost(key, s.latest)
    && forall k :: 0 <= k < 3 ==> s.slots[k].state != Free && s.slots[k].key == key ==> s.slots[k].evaluationTaken
  }

  lemma EvaluatedStays(s: State, c: Call, key: FrameKey)
    requires WellFormed(s)
    ensures var (t, r) := Step(s, c);
            && (Evaluated(s, key) && !Rebinds(Entry(s, c, r, t)) ==> Evaluated(t, key))
            && (c.TakeEvaluation? && r.ok ==> c.current == s.latest && !Evaluated(s, c.current) && Evaluated(t, c.current))
  {
    match c
    case Bind(_) =>
    case Collect(_, _) =>
    case Begin(_) =>
    case CommandsStarted(_) =>
    case GuidesReady(_) =>
    case TakeEvaluation(l, current) => if CanEvaluate(s, l, current) { EvaluatesOnce(s, l, current); }
    case Submit(_, _) =>
    case Abort(_) =>
  }

  lemma EvaluatesOnce(s: State, l: Lease, current: FrameKey)
    requires WellFormed(s) && CanEvaluate(s, l, current)
    ensures !Evaluated(s, current) && Evaluated(EvaluationStep(s, l, current).0, current)
  {
    assert s.slots[l.index].state != Free && !s.slots[l.index].evaluationTaken;
    forall k | 0 <= k < 3 && k != l.index && s.slots[k].state != Free ensures s.slots[k].key != current {
      assert PairOk(s.slots[0], s.slots[1]) && PairOk(s.slots[0], s.slots[2]) && PairOk(s.slots[1], s.slots[2]);
    }
  }

  lemma {:induction false} EvaluatedKept(run: seq<Entry>, i: nat, j: nat, key: FrameKey)
    requires IsRun(run) && i <= j <= |run| && SameBinding(run, i, j) && Evaluated(StateAt(run, i), key)
    ensures Evaluated(StateAt(run, j), key)
    decreases j
  {
    if j > i {
      EvaluatedKept(run, i, j - 1, key);
      AlwaysWellFormed(run, j - 1);
      assert Follows(run, j - 1);
      EvaluatedStays(run[j - 1].before, run[j - 1].call, key);
      assert run[j - 1] == Entry(run[j - 1].before, run[j - 1].call, run[j - 1].outcome, run[j - 1].after);
      assert !Rebinds(run[j - 1]);
    }
  }

  /** Within one binding, a key is evaluated at most once, and only while it is the newest. */
  lemma EvaluatedOnce(run: seq<Entry>, i: nat, j: nat)
    requires IsRun(run) && i < j < |run| && SameBinding(run, i, j)
    requires run[i].call.TakeEvaluation? && run[i].outcome.ok && run[j].call.TakeEvaluation? && run[j].outcome.ok
    ensures run[i].call.current != run[j].call.current
    ensures run[j].call.current == run[j].before.latest
  {
    AlwaysWellFormed(run, i);
    AlwaysWellFormed(run, j);
    assert Follows(run, i) && Follows(run, j);
    EvaluatedStays(run[i].before, run[i].call, run[i].call.current);
    EvaluatedKept(run, i + 1, j, run[i].call.current);
    EvaluatedStays(run[j].before, run[j].call, run[j].call.current);
  }
}
