/**
  What the frame-slot allocator does when nothing goes wrong: slots come back, and
  a call is refused or a slot retained only for cause (src/rr_frame_slots.h:26-78).
*/
module FrameSlotProgress {
  import opened FrameSlots
  import opened FrameSlotHistory

  const MAXIMUM := 0xFFFF_FFFF_FFFF_FFFF

  // --- When a call succeeds ---

  /** The lease names a slot that still holds it, in one of these states. */
  predicate Holds(s: State, l: Lease, states: set<SlotState>)
  {
    l.index < |s.slots| && l.serial != 0 && s.slots[l.index].serial == l.serial && s.slots[l.index].state in states
  }

  ghost predicate HasFree(s: State)
  {
    exists k :: 0 <= k < |s.slots| && s.slots[k].state == Free
  }

  predicate Leasable(s: State, key: FrameKey)
  {
    && !s.lost && s.fence.fence != 0 && s.serial < MAXIMUM
    && key.frame != 0 && key.epoch != 0 && 1 <= key.width <= 8192 && 1 <= key.height <= 8192
    && (key.epoch > s.latest.epoch ||
        (key.epoch == s.latest.epoch && key.frame > s.latest.frame && key.width == s.latest.width && key.height == s.latest.height))
  }

  /** A value that may be signalled next. */
  predicate Signals(s: State, value: U64) { s.lastSignal < value < MAXIMUM }

  ghost predicate Succeeds(s: State, c: Call)
  {
    match c
    case Bind(f) => f.device != 0 && f.queue != 0 && f.fence != 0 && if s.fence == f then !s.lost else AllFree(s.slots)
    case Collect(f, value) => s.fence == f && f.fence != 0 && !s.lost && s.completed <= value <= s.lastSignal && value < MAXIMUM
    case Begin(key) => Leasable(s, key) && HasFree(s)
    case CommandsStarted(l) => !s.lost && Holds(s, l, {Recording})
    case GuidesReady(l) => !s.lost && Holds(s, l, {Recording}) && s.slots[l.index].commands
    case TakeEvaluation(l, current) =>
      && !s.lost && Holds(s, l, {Ready}) && current == s.latest == s.slots[l.index].key && !s.slots[l.index].evaluationTaken
    case Submit(l, value) => !s.lost && Holds(s, l, {Recording, Ready}) && s.slots[l.index].commands && Signals(s, value)
    case Abort(l) => Holds(s, l, {Recording, Ready})
  }

  lemma BeginSucceeds(s: State, key: FrameKey)
    requires WellFormed(s)
    ensures Step(s, Begin(key)).1.ok <==> Succeeds(s, Begin(key))
  {
    if InSequence(s.latest, key) { DuplicateScanSilent(s, key); }
    if HasFree(s) {
      var k :| 0 <= k < |s.slots| && s.slots[k].state == Free;
      assert FirstFree(s.slots, 0) <= k;
    }
  }

  /** When each call succeeds. */
  lemma SucceedsIff(s: State, c: Call)
    requires WellFormed(s)
    ensures Step(s, c).1.ok <==> Succeeds(s, c)
  {
    match c
    case Bind(_) =>
    case Collect(_, _) =>
    case Begin(key) => BeginSucceeds(s, key);
    case CommandsStarted(_) =>
    case GuidesReady(_) =>
    case TakeEvaluation(_, _) =>
    case Submit(_, _) =>
    case Abort(_) =>
  }

  // --- Slots come back ---

  /** A lease submitted with value `v` on fence `f`: its slot waits for `v`, is free, or was leased again. */
  predicate ComesBack(s: State, l: Lease, v: U64, f: FenceKey)
    requires |s.slots| == 3 && l.index < 3
  {
    var x := s.slots[l.index];
    x.serial > l.serial || (x.serial == l.serial && (x.state == Free || (x.state == Submitted && x.fenceValue == v && s.fence == f)))
  }

  /** The slot is free, or was leased again. */
  predicate CameBack(s: State, l: Lease)
    requires |s.slots| == 3 && l.index < 3
  {
    s.slots[l.index].serial > l.serial || s.slots[l.index].state == Free
  }

  lemma StaysComing(s: State, c: Call, l: Lease, v: U64, f: FenceKey)
    requires WellFormed(s) && l.index < 3 && l.serial != 0 && ComesBack(s, l, v, f)
    ensures var (t, r) := Step(s, c);
            && |t.slots| == 3 && ComesBack(t, l, v, f)
            && (c.Collect? && r.ok && c.fence == f && c.completed >= v ==> CameBack(t, l))
  {
    assert SlotOk(s, s.slots[l.index]);
    match c
    case Bind(_) =>
    case Collect(_, _) =>
    case Begin(_) =>
    case CommandsStarted(_) =>
    case GuidesReady(_) =>
    case TakeEvaluation(_, _) =>
    case Submit(_, _) =>
    case Abort(_) =>
  }

  lemma SubmitStarts(s: State, l: Lease, v: U64)
    requires WellFormed(s) && Step(s, Submit(l, v)).1.ok
    ensures l.index < 3 && l.serial != 0 && |Step(s, Submit(l, v)).0.slots| == 3 && ComesBack(Step(s, Submit(l, v)).0, l, v, s.fence)
  {
  }

  lemma {:induction false} SubmittedComesBack(run: seq<Entry>, p: nat, n: nat, l: Lease, v: U64)
    requires IsRun(run) && p < n <= |run| && Submits(run[p], l, v)
    ensures l.index < 3 && l.serial != 0 && |StateAt(run, n).slots| == 3 && ComesBack(StateAt(run, n), l, v, run[p].before.fence)
    decreases n
  {
    AlwaysWellFormed(run, n - 1);
    assert Follows(run, n - 1);
    if p < n - 1 {
      SubmittedComesBack(run, p, n - 1, l, v);
      StaysComing(run[n - 1].before, run[n - 1].call, l, v, run[p].before.fence);
    } else {
      SubmitStarts(run[p].before, l, v);
    }
  }

  /**
    In every run, once a lease was submitted and a later collection on the same
    fence reported its value or more, its slot is free or has been leased again.
  */
  lemma SubmittedIsFreed(run: seq<Entry>, p: nat, q: nat, l: Lease, v: U64)
    requires IsRun(run) && p < q < |run| && Submits(run[p], l, v) && Observes(run, p, q, v)
    ensures l.index < 3 && |run[q].after.slots| == 3 && CameBack(run[q].after, l)
  {
    SubmittedComesBack(run, p, q, l, v);
    AlwaysWellFormed(run, q);
    assert Follows(run, q);
    StaysComing(run[q].before, run[q].call, l, v, run[p].before.fence);
  }

  /** So when its slot is free then, a newer key is leased, unless the fence is lost, unbound or the serials are used up. */
  lemma FreedIsLeased(run: seq<Entry>, p: nat, q: nat, l: Lease, v: U64, key: FrameKey)
    requires IsRun(run) && p < q < |run| && Submits(run[p], l, v) && Observes(run, p, q, v)
    requires l.index < |run[q].after.slots| && run[q].after.slots[l.index].serial == l.serial && Leasable(run[q].after, key)
    ensures Step(run[q].after, Begin(key)).1.ok
  {
    SubmittedIsFreed(run, p, q, l, v);
    AlwaysWellFormed(run, q + 1);
    SucceedsIff(run[q].after, Begin(key));
  }

  // --- Slots are retained, and the fence is lost, only for cause ---

  /** The call aborts a lease that recorded commands, or submits it with a value that cannot be signalled. */
  predicate Retains(s: State, c: Call, k: nat)
  {
    k < |s.slots| && s.slots[k].commands &&
    match c
    case Submit(l, value) => l.index == k && !s.lost && Holds(s, l, {Recording, Ready}) && !Signals(s, value)
    case Abort(l) => l.index == k && Holds(s, l, {Recording, Ready})
    case _ => false
  }

  lemma StepRetains(s: State, c: Call, k: nat)
    requires WellFormed(s) && k < 3
    ensures var t := Step(s, c).0; |t.slots| == 3 && (t.slots[k].state == Retained <==> s.slots[k].state == Retained || Retains(s, c, k))
  {
    match c
    case Bind(_) =>
    case Collect(_, _) =>
    case Begin(_) =>
    case CommandsStarted(_) =>
    case GuidesReady(_) =>
    case TakeEvaluation(_, _) =>
    case Submit(_, _) =>
    case Abort(_) =>
  }

  /** In every run, a slot is retained exactly when such a call was made on it. */
  lemma {:induction false} RetainedIff(run: seq<Entry>, n: nat, k: nat)
    requires IsRun(run) && n <= |run| && k < 3
    ensures |StateAt(run, n).slots| == 3
    ensures StateAt(run, n).slots[k].state == Retained <==> exists m :: 0 <= m < n && Retains(run[m].before, run[m].call, k)
  {
    if n > 0 {
      var m := n - 1;
      RetainedIff(run, m, k);
      AlwaysWellFormed(run, m);
      assert Follows(run, m);
      StepRetains(run[m].before, run[m].call, k);
      if Retains(run[m].before, run[m].call, k) { assert 0 <= m < n && Retains(run[m].before, run[m].call, k); }
    }
  }

  /** Call `m` reports the fence as gone, which is bound since. */
  predicate Loses(run: seq<Entry>, m: nat, n: nat)
    requires n <= |run|
  {
    && m < n && run[m].call.Collect? && run[m].call.completed == MAXIMUM
    && run[m].call.fence == run[m].before.fence && run[m].call.fence.fence != 0
    && SameBinding(run, m, n)
  }

  lemma LossSteps(s: State, c: Call)
    ensures var (t, r) := Step(s, c);
            t.lost <==> (c.Collect? && c.completed == MAXIMUM && c.fence == s.fence && c.fence.fence != 0) ||
                        (s.lost && !Rebinds(Entry(s, c, r, t)))
  {
    match c
    case Bind(_) =>
    case Collect(_, _) =>
    case Begin(_) =>
    case CommandsStarted(_) =>
    case GuidesReady(_) =>
    case TakeEvaluation(_, _) =>
    case Submit(_, _) =>
    case Abort(_) =>
  }

  /** In every run, the fence counts as lost exactly when it was reported gone since it was bound. */
  lemma {:induction false} LostIff(run: seq<Entry>, n: nat)
    requires IsRun(run) && n <= |run|
    ensures StateAt(run, n).lost <==> exists m: nat :: Loses(run, m, n)
  {
    if n > 0 {
      var k := n - 1;
      LostIff(run, k);
      assert Follows(run, k);
      LossSteps(run[k].before, run[k].call);
      assert run[k] == Entry(run[k].before, run[k].call, run[k].outcome, run[k].after);
      if StateAt(run, n).lost {
        if run[k].before.lost && !Rebinds(run[k]) {
          var m: nat :| Loses(run, m, k);
          assert Loses(run, m, n);
        } else {
          assert Loses(run, k, n);
        }
      }
      if m: nat :| Loses(run, m, n) {
        if m < k { assert SameBinding(run, m, k) && Loses(run, m, k); }
      }
    }
  }

  /** Binding another fence starts its counters and keys afresh; leases go on being numbered. */
  lemma BindStarts(s: State, f: FenceKey)
    requires f.device != 0 && f.queue != 0 && f.fence != 0 && f != s.fence && AllFree(s.slots)
    ensures Step(s, Bind(f)) == (State(s.slots, f, s.serial, 0, 0, FrameKey(0, 0, 0, 0), false), Outcome(true, NO_LEASE))
  {
  }

  // --- One frame after the other ---

  datatype Played = Played(state: State, ok: bool)

  function Then(p: Played, c: Call): Played
  {
    Played(Step(p.state, c).0, p.ok && Step(p.state, c).1.ok)
  }

  function LeaseFor(s: State, key: FrameKey): Lease { Step(s, Begin(key)).1.lease }

  /** All the calls of one frame, up to the collection of its value. */
  function Cycle(s: State, key: FrameKey, value: U64): Played
  {
    var l := LeaseFor(s, key);
    Then(Then(Then(Then(Then(Then(Played(s, true), Begin(key)), CommandsStarted(l)), GuidesReady(l)), TakeEvaluation(l, key)),
              Submit(l, value)), Collect(s.fence, value))
  }

  /** The slots in use are those submitted earlier. */
  predicate OnlySubmitted(s: State)
  {
    forall k :: 0 <= k < |s.slots| ==> s.slots[k].state == Free || s.slots[k].state == Submitted
  }

  /** The four calls between leasing and submitting, seen from the leased slot. */
  lemma LeaseWorks(s: State, l: Lease, key: FrameKey, value: U64)
    requires WellFormed(s) && !s.lost && s.fence.fence != 0 && Signals(s, value) && s.latest == key && l.index < 3 && l.serial != 0
    requires s.slots[l.index] == Slot(Recording, key, l.serial, 0, false, false)
    ensures var p := Then(Then(Then(Then(Played(s, true), CommandsStarted(l)), GuidesReady(l)), TakeEvaluation(l, key)), Submit(l, value));
            p.ok && p.state == s.(lastSignal := value, slots := s.slots[l.index := Slot(Submitted, key, l.serial, value, true, true)])
  {
    var a := s.(slots := s.slots[l.index := Slot(Recording, key, l.serial, 0, true, false)]);
    assert Step(s, CommandsStarted(l)) == (a, Outcome(true, NO_LEASE));
    var b := a.(slots := a.slots[l.index := Slot(Ready, key, l.serial, 0, true, false)]);
    assert Step(a, GuidesReady(l)) == (b, Outcome(true, NO_LEASE));
    var c := b.(slots := b.slots[l.index := Slot(Ready, key, l.serial, 0, true, true)]);
    assert Step(b, TakeEvaluation(l, key)) == (c, Outcome(true, NO_LEASE));
    var d := c.(lastSignal := value, slots := c.slots[l.index := Slot(Submitted, key, l.serial, value, true, true)]);
    assert Step(c, Submit(l, value)) == (d, Outcome(true, NO_LEASE));
    assert d.slots == s.slots[l.index := Slot(Submitted, key, l.serial, value, true, true)];
  }

  /** The first free slot is leased, under the next serial. */
  lemma BeginLeases(s: State, key: FrameKey)
    requires WellFormed(s) && Leasable(s, key) && HasFree(s)
    ensures var (t, r) := Step(s, Begin(key));
            var l := r.lease;
            && r.ok && WellFormed(t) && l.index < 3 && l.serial == s.serial + 1 == t.serial
            && s.slots[l.index].state == Free && (forall k: nat :: k < l.index ==> s.slots[k].state != Free)
            && t == s.(slots := s.slots[l.index := Slot(Recording, key, l.serial, 0, false, false)], serial := s.serial + 1, latest := key)
  {
    SucceedsIff(s, Begin(key));
    StepWellFormed(s, Begin(key));
  }

  /** Collecting the last value signalled frees every submitted slot. */
  lemma CollectFrees(s: State)
    requires WellFormed(s) && !s.lost && s.fence.fence != 0 && OnlySubmitted(s)
    ensures var (t, r) := Step(s, Collect(s.fence, s.lastSignal));
            r.ok && WellFormed(t) && AllFree(t.slots) && t == s.(slots := t.slots, completed := s.lastSignal)
  {
    StepWellFormed(s, Collect(s.fence, s.lastSignal));
    forall k | 0 <= k < 3 ensures RetireSlot(s.slots[k], s.lastSignal).state == Free {
      assert SlotOk(s, s.slots[k]);
    }
  }

  /** A frame with a newer key and value goes through all its calls, and then every submitted slot is free. */
  lemma CycleCompletes(s: State, key: FrameKey, value: U64)
    requires WellFormed(s) && Leasable(s, key) && HasFree(s) && Signals(s, value) && OnlySubmitted(s)
    ensures Cycle(s, key, value).ok && Finished(Cycle(s, key, value).state, s.fence, s.serial + 1, key, value)
  {
    BeginLeases(s, key);
    var begun, l := Step(s, Begin(key)).0, LeaseFor(s, key);
    LeaseWorks(begun, l, key, value);
    SubmitWellFormedAfter(begun, l, key, value);
    var submitted := begun.(lastSignal := value, slots := begun.slots[l.index := Slot(Submitted, key, l.serial, value, true, true)]);
    CollectFrees(submitted);
    assert Cycle(s, key, value) == Then(Played(submitted, true), Collect(s.fence, value));
  }

  lemma SubmitWellFormedAfter(s: State, l: Lease, key: FrameKey, value: U64)
    requires WellFormed(s) && Signals(s, value) && s.latest == key && l.index < 3 && l.serial != 0 && s.fence.fence != 0
    requires s.slots[l.index] == Slot(Recording, key, l.serial, 0, false, false)
    ensures WellFormed(s.(lastSignal := value, slots := s.slots[l.index := Slot(Submitted, key, l.serial, value, true, true)]))
  {
  }

  /** All slots are free again, and the fence and counters are these. */
  predicate Finished(t: State, fence: FenceKey, serial: nat, key: FrameKey, value: U64)
  {
    && WellFormed(t) && AllFree(t.slots) && !t.lost && t.fence == fence && t.serial == serial && t.latest == key
    && t.lastSignal == value
  }

  /** What the frames of one binding ask for: keys in sequence, and values in increasing order. */
  predicate Steady(s: State, keys: seq<FrameKey>, values: seq<U64>)
  {
    && |keys| == |values| && s.serial + |keys| <= MAXIMUM
    && forall i :: 0 <= i < |keys| ==>
         && keys[i].frame != 0 && keys[i].epoch != 0 && 1 <= keys[i].width <= 8192 && 1 <= keys[i].height <= 8192
         && InSequence(if i == 0 then s.latest else keys[i - 1], keys[i])
         && (if i == 0 then s.lastSignal else values[i - 1]) < values[i] < MAXIMUM
  }

  /** `round` played for 0, 1 and so on. */
  function Rounds(round: (State, nat) -> Played, s: State, n: nat): Played
  {
    if n == 0 then Played(s, true)
    else
      var p := Rounds(round, s, n - 1);
      Played(round(p.state, n - 1).state, p.ok && round(p.state, n - 1).ok)
  }

  lemma {:induction false} RoundsGoOn(round: (State, nat) -> Played, holds: (State, nat) -> bool, s: State, n: nat)
    requires holds(s, 0)
    requires forall t, i: nat {:trigger round(t, i)} :: i < n && holds(t, i) ==> round(t, i).ok && holds(round(t, i).state, i + 1)
    ensures Rounds(round, s, n).ok && holds(Rounds(round, s, n).state, n)
  {
    if n > 0 { RoundsGoOn(round, holds, s, n - 1); }
  }

  function Frame(t: State, keys: seq<FrameKey>, values: seq<U64>, i: nat): Played
    requires |keys| == |values|
  {
    if i < |keys| then Cycle(t, keys[i], values[i]) else Played(t, true)
  }

  function Frames(keys: seq<FrameKey>, values: seq<U64>): (State, nat) -> Played
    requires |keys| == |values|
  {
    (t: State, i: nat) => Frame(t, keys, values, i)
  }

  predicate Reached(t: State, s: State, keys: seq<FrameKey>, values: seq<U64>, n: nat)
    requires n <= |keys| == |values|
  {
    Finished(t, s.fence, s.serial + n, if n == 0 then s.latest else keys[n - 1], if n == 0 then s.lastSignal else values[n - 1])
  }

  lemma NextFrame(t: State, s: State, keys: seq<FrameKey>, values: seq<U64>, n: nat)
    requires Steady(s, keys, values) && n < |keys| && s.fence.fence != 0 && Reached(t, s, keys, values, n)
    ensures Frame(t, keys, values, n).ok && Reached(Frame(t, keys, values, n).state, s, keys, values, n + 1)
  {
    assert t.slots[0].state == Free;
    CycleCompletes(t, keys[n], values[n]);
  }

  ghost predicate Goes(round: (State, nat) -> Played, s: State, keys: seq<FrameKey>, values: seq<U64>, t: State, i: nat)
    requires |keys| == |values|
  {
    i < |keys| && Reached(t, s, keys, values, i) ==> round(t, i).ok && Reached(round(t, i).state, s, keys, values, i + 1)
  }

  lemma FrameGoes(s: State, keys: seq<FrameKey>, values: seq<U64>, t: State, i: nat)
    requires Steady(s, keys, values) && s.fence.fence != 0
    ensures Goes(Frames(keys, values), s, keys, values, t, i)
  {
    if i < |keys| && Reached(t, s, keys, values, i) { NextFrame(t, s, keys, values, i); }
  }

  lemma GoesOn(round: (State, nat) -> Played, s: State, keys: seq<FrameKey>, values: seq<U64>)
    requires |keys| == |values| && Reached(s, s, keys, values, 0) && forall t, i: nat :: Goes(round, s, keys, values, t, i)
    ensures var p := Rounds(round, s, |keys|); p.ok && Reached(p.state, s, keys, values, |keys|)
  {
    var holds := (t: State, i: nat) => i <= |keys| && Reached(t, s, keys, values, i);
    forall t, i: nat | i < |keys| && holds(t, i) ensures round(t, i).ok && holds(round(t, i).state, i + 1) {
      assert Goes(round, s, keys, values, t, i);
    }
    RoundsGoOn(round, holds, s, |keys|);
  }

  /** Any number of frames go through, one after the other, on three slots. */
  lemma FramesGoOn(s: State, keys: seq<FrameKey>, values: seq<U64>)
    requires WellFormed(s) && !s.lost && s.fence.fence != 0 && AllFree(s.slots) && Steady(s, keys, values)
    ensures var p := Rounds(Frames(keys, values), s, |keys|); p.ok && Reached(p.state, s, keys, values, |keys|)
  {
    forall t, i: nat ensures Goes(Frames(keys, values), s, keys, values, t, i) {
      FrameGoes(s, keys, values, t, i);
    }
    GoesOn(Frames(keys, values), s, keys, values);
  }
}
