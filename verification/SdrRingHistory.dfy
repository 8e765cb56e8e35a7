/**
  Runs of the copy ring: no allocator is reset or released before the fence was
  seen to reach everything it was used for, whatever fails
  (src/fg_sdr_correction.h:20-128).
*/
module SdrRingHistory {
  import opened SdrCopyRing

  datatype Entry = Entry(before: State, call: Call, ok: bool, after: State)

  predicate Follows(run: seq<Entry>, n: nat)
    requires n < |run|
  {
    && run[n].before == (if n == 0 then INITIAL else run[n - 1].after)
    && Result(run[n].after, run[n].ok) == Step(run[n].before, run[n].call)
  }

  predicate IsRun(run: seq<Entry>)
  {
    forall n :: 0 <= n < |run| ==> Follows(run, n)
  }

  function StateAt(run: seq<Entry>, n: nat): State
    requires n <= |run|
  {
    if n == 0 then INITIAL else run[n - 1].after
  }

  // --- What the log says ---

  /** A submission at `m` was seen to complete before `n`. */
  predicate Settled(log: seq<Event>, m: nat, n: nat)
    requires m < n <= |log|
  {
    log[m].Submitted? ==> exists k :: m < k < n && log[k].Observed? && log[k].value >= log[m].value
  }

  /** Before `n`, everything submitted with a slot was seen to complete, and no Signal of it failed. */
  predicate Clear(log: seq<Event>, i: nat, n: nat)
    requires n <= |log|
  {
    forall m :: 0 <= m < n ==> (log[m].Submitted? && log[m].slot == i ==> Settled(log, m, n)) && log[m] != SignalFailed(i)
  }

  predicate Reuses(e: Event) { e.AllocatorReset? || e.Released? }

  /** No allocator is reset or released while the device may still be using it. */
  predicate Safe(log: seq<Event>)
  {
    forall n :: 0 <= n < |log| && Reuses(log[n]) ==> Clear(log, log[n].slot, n)
  }

  /** How the log bears on what a slot holds now. */
  predicate SlotLog(log: seq<Event>, i: nat, use: Use)
  {
    forall m :: 0 <= m < |log| ==>
      && (log[m].Submitted? && log[m].slot == i ==> Settled(log, m, |log|) || use == Signalled(log[m].value))
      && (log[m] == SignalFailed(i) ==> use == Unsignalled)
  }

  lemma SettledStays(log: seq<Event>, e: Event, m: nat, n: nat)
    requires m < n <= |log| && Settled(log, m, n)
    ensures Settled(log + [e], m, n) && Settled(log + [e], m, |log| + 1)
  {
    var more := log + [e];
    if log[m].Submitted? {
      var k :| m < k < n && log[k].Observed? && log[k].value >= log[m].value;
      assert more[k] == log[k] && more[m] == log[m];
    }
  }

  lemma ClearStays(log: seq<Event>, e: Event, i: nat, n: nat)
    requires n <= |log| && Clear(log, i, n)
    ensures Clear(log + [e], i, n)
  {
    var more := log + [e];
    forall m | 0 <= m < n ensures (more[m].Submitted? && more[m].slot == i ==> Settled(more, m, n)) && more[m] != SignalFailed(i) {
      assert more[m] == log[m];
      if log[m].Submitted? && log[m].slot == i { SettledStays(log, e, m, n); }
    }
  }

  lemma SafeGrows(log: seq<Event>, e: Event)
    requires Safe(log) && (Reuses(e) ==> Clear(log, e.slot, |log|))
    ensures Safe(log + [e])
  {
    var more := log + [e];
    forall n | 0 <= n < |more| && Reuses(more[n]) ensures Clear(more, more[n].slot, n) {
      if n < |log| {
        assert more[n] == log[n];
        ClearStays(log, e, log[n].slot, n);
      } else {
        ClearStays(log, e, e.slot, n);
      }
    }
  }

  /** An event that is not about the slot leaves its log as it is. */
  lemma SlotLogGrows(log: seq<Event>, e: Event, i: nat, use: Use)
    requires SlotLog(log, i, use) && !(e.Submitted? && e.slot == i) && e != SignalFailed(i)
    ensures SlotLog(log + [e], i, use)
  {
    var more := log + [e];
    forall m | 0 <= m < |more|
      ensures more[m].Submitted? && more[m].slot == i ==> Settled(more, m, |more|) || use == Signalled(more[m].value)
      ensures more[m] == SignalFailed(i) ==> use == Unsignalled
    {
      if m < |log| {
        assert more[m] == log[m];
        if Settled(log, m, |log|) { SettledStays(log, e, m, |log|); }
      }
    }
  }

  /** Seeing the value reached settles everything the slot was used for. */
  lemma ObservingSettles(log: seq<Event>, i: nat, value: nat, seen: nat)
    requires SlotLog(log, i, Signalled(value)) && seen >= value
    ensures SlotLog(log + [Observed(seen)], i, Idle)
  {
    var e := Observed(seen);
    var more := log + [e];
    forall m | 0 <= m < |more|
      ensures more[m].Submitted? && more[m].slot == i ==> Settled(more, m, |more|)
      ensures more[m] != SignalFailed(i)
    {
      if m < |log| {
        assert more[m] == log[m];
        if Settled(log, m, |log|) {
          SettledStays(log, e, m, |log|);
        } else {
          assert more[|log|] == e;
        }
      }
    }
  }

  lemma IdleIsClear(log: seq<Event>, i: nat)
    requires SlotLog(log, i, Idle)
    ensures Clear(log, i, |log|)
  {
  }

  /** A submission, whose value is what the slot now waits for. */
  lemma SubmittingOpens(log: seq<Event>, i: nat, value: nat)
    requires SlotLog(log, i, Idle)
    ensures SlotLog(log + [Submitted(i, value)], i, Signalled(value))
  {
    var e := Submitted(i, value);
    var more := log + [e];
    forall m | 0 <= m < |more|
      ensures more[m].Submitted? && more[m].slot == i ==> Settled(more, m, |more|) || m == |log|
      ensures more[m] != SignalFailed(i)
    {
      if m < |log| {
        assert more[m] == log[m];
        if log[m].Submitted? && log[m].slot == i { SettledStays(log, e, m, |log|); }
      }
    }
  }

  lemma FailingOpens(log: seq<Event>, i: nat)
    requires SlotLog(log, i, Idle)
    ensures SlotLog(log + [SignalFailed(i)], i, Unsignalled)
  {
    var e := SignalFailed(i);
    var more := log + [e];
    forall m | 0 <= m < |more| ensures more[m].Submitted? && more[m].slot == i ==> Settled(more, m, |more|) {
      if m < |log| {
        assert more[m] == log[m];
        if log[m].Submitted? && log[m].slot == i { SettledStays(log, e, m, |log|); }
      }
    }
  }

  // --- The invariant of every reachable ring ---

  predicate InOrder(x: Slot, y: Slot)
  {
    x.use.Signalled? && y.use.Signalled? ==> x.use.value < y.use.value
  }

  /** The slot `k` places round the ring from the next one. */
  function Place(slots: seq<Slot>, next: nat, k: nat): Slot
    requires |slots| == SLOTS && next < SLOTS && k < SLOTS
  {
    slots[if next + k < SLOTS then next + k else next + k - SLOTS]
  }

  predicate UpTo(x: Slot, serial: nat) { x.use.Signalled? ==> x.use.value <= serial }

  /** From `next` on round the ring, the values waited for increase, up to the last one used. */
  predicate RingOk(slots: seq<Slot>, next: nat, serial: nat)
    requires |slots| == SLOTS && next < SLOTS
  {
    var a, b, c := Place(slots, next, 0), Place(slots, next, 1), Place(slots, next, 2);
    InOrder(a, b) && InOrder(a, c) && InOrder(b, c) && UpTo(a, serial) && UpTo(b, serial) && UpTo(c, serial)
  }

  function Busy(x: Slot): nat { if x.use.Signalled? then 1 else 0 }

  function InFlight(slots: seq<Slot>): nat
    requires |slots| == SLOTS
  {
    Busy(slots[0]) + Busy(slots[1]) + Busy(slots[2])
  }

  /** A slot in use has its objects, as all have while there is a fence; only the next one can hold a copy without a value. */
  predicate SlotOk(x: Slot, fence: bool, isNext: bool)
  {
    (x.use != Idle ==> fence) && (fence ==> x.ready) && (x.use == Unsignalled ==> isNext)
  }

  predicate SlotsOk(slots: seq<Slot>, next: nat, fence: bool)
    requires |slots| == SLOTS
  {
    SlotOk(slots[0], fence, next == 0) && SlotOk(slots[1], fence, next == 1) && SlotOk(slots[2], fence, next == 2)
  }

  predicate Ring(slots: seq<Slot>, next: nat, serial: nat, fence: bool, submitted: nat, retired: nat)
  {
    && |slots| == SLOTS && next < SLOTS && RingOk(slots, next, serial) && SlotsOk(slots, next, fence)
    && submitted == retired + InFlight(slots)
  }

  predicate RingCore(s: State) { Ring(s.slots, s.next, s.serial, s.fence, s.submitted, s.retired) }

  predicate LogOk(s: State)
  {
    && |s.slots| == SLOTS && Safe(s.log)
    && SlotLog(s.log, 0, s.slots[0].use) && SlotLog(s.log, 1, s.slots[1].use) && SlotLog(s.log, 2, s.slots[2].use)
  }

  predicate NoneUnsignalled(s: State)
  {
    forall i :: 0 <= i < |s.slots| ==> s.slots[i].use != Unsignalled
  }

  predicate WellFormed(s: State)
  {
    RingCore(s) && LogOk(s) && (!s.failed ==> NoneUnsignalled(s))
  }

  // --- Retiring ---

  lemma ObserveLog(s: State, r: Reading)
    requires LogOk(s)
    ensures LogOk(Observe(s, r))
  {
    if r.Reached? {
      var e := Observed(r.value);
      SafeGrows(s.log, e);
      SlotLogGrows(s.log, e, 0, s.slots[0].use);
      SlotLogGrows(s.log, e, 1, s.slots[1].use);
      SlotLogGrows(s.log, e, 2, s.slots[2].use);
    }
  }

  lemma RetiredLog(s: State, i: nat, r: Reading)
    requires LogOk(s) && i < SLOTS && s.slots[i].use.Signalled? && Reaches(r, s.slots[i].use.value)
    ensures LogOk(Retired(Observe(s, r), i))
  {
    ObserveLog(s, r);
    ObservingSettles(s.log, i, s.slots[i].use.value, r.value);
  }

  lemma RetireOneLog(s: State, i: nat, wait: bool, draining: bool, a: Answers)
    requires LogOk(s) && i < SLOTS
    ensures LogOk(RetireOne(s, i, wait, draining, a).state)
  {
    var use := s.slots[i].use;
    if use.Signalled? && a.first.Reached? {
      ObserveLog(s, a.first);
      if a.first.value >= use.value {
        RetiredLog(s, i, a.first);
      } else if wait && a.eventSet {
        var t := Waiting(Observe(s, a.first), draining);
        ObserveLog(t, a.second);
        if Reaches(a.second, use.value) { RetiredLog(t, i, a.second); }
      }
    }
  }

  predicate SameOutside(s: State, t: State)
  {
    && t.queue == s.queue && t.fence == s.fence && t.serial == s.serial && t.next == s.next
    && t.shutdown == s.shutdown && t.submitted == s.submitted
  }

  /** At most slot `i` was retired, and counted. */
  predicate OneRetired(s: State, t: State, i: nat)
    requires i < |s.slots|
  {
    && SameOutside(s, t)
    && ((t.slots == s.slots && t.retired == s.retired) ||
        (s.slots[i].use.Signalled? && t.slots == s.slots[i := s.slots[i].(use := Idle)] && t.retired == s.retired + 1))
  }

  /** What every way through retiring one slot comes to. */
  predicate Retiring(s: State, i: nat, wait: bool, r: Result)
    requires i < |s.slots|
  {
    && |r.state.slots| == |s.slots| && OneRetired(s, r.state, i) && r.state.failed == s.failed
    && (r.ok && wait ==> r.state.slots[i].use == Idle)
    && (r.ok ==> s.slots[i].use != Unsignalled)
  }

  lemma RetiredRing(s: State, i: nat, wait: bool, r: Reading)
    requires i < |s.slots| && s.slots[i].use.Signalled?
    ensures Retiring(s, i, wait, Result(Retired(Observe(s, r), i), true))
  {
  }

  lemma WaitedRing(s: State, i: nat, draining: bool, r: Reading, result: Result)
    requires i < |s.slots| && Retiring(Waiting(Observe(s, r), draining), i, true, result)
    ensures Retiring(s, i, true, result)
  {
  }

  lemma AwaitRing(s: State, i: nat, value: nat, a: Answers)
    requires i < |s.slots| && s.slots[i].use == Signalled(value)
    ensures Retiring(s, i, true, Await(s, i, value, a))
  {
  }

  lemma RetireOneRing(s: State, i: nat, wait: bool, draining: bool, a: Answers)
    requires i < |s.slots|
    ensures Retiring(s, i, wait, RetireOne(s, i, wait, draining, a))
  {
    var use := s.slots[i].use;
    if use.Signalled? && a.first.Reached? {
      if a.first.value >= use.value {
        RetiredRing(s, i, wait, a.first);
      } else if wait {
        AwaitRing(Waiting(Observe(s, a.first), draining), i, use.value, a);
        WaitedRing(s, i, draining, a.first, Await(Waiting(Observe(s, a.first), draining), i, use.value, a));
      }
    }
  }

  lemma RetiringKeepsRing(slots: seq<Slot>, next: nat, serial: nat, fence: bool, submitted: nat, retired: nat, i: nat)
    requires Ring(slots, next, serial, fence, submitted, retired) && i < SLOTS && slots[i].use.Signalled?
    ensures Ring(slots[i := slots[i].(use := Idle)], next, serial, fence, submitted, retired + 1)
  {
  }

  lemma RetireOneKeeps(s: State, i: nat, wait: bool, draining: bool, a: Answers)
    requires RingCore(s) && i < SLOTS
    ensures RingCore(RetireOne(s, i, wait, draining, a).state)
  {
    RetireOneRing(s, i, wait, draining, a);
    if s.slots[i].use.Signalled? {
      RetiringKeepsRing(s.slots, s.next, s.serial, s.fence, s.submitted, s.retired, i);
    }
  }

  lemma {:induction false} RetireFromLog(s: State, i: nat, wait: bool, answers: nat -> Answers)
    requires LogOk(s) && i <= SLOTS
    ensures LogOk(RetireFrom(s, i, wait, answers).state)
    decreases SLOTS - i
  {
    if i < SLOTS {
      var one := RetireOne(s, i, wait, wait, answers(i));
      RetireOneLog(s, i, wait, wait, answers(i));
      if one.ok { RetireFromLog(one.state, i + 1, wait, answers); }
    }
  }

  lemma {:induction false} RetireFromRing(s: State, i: nat, wait: bool, answers: nat -> Answers)
    requires RingCore(s) && i <= SLOTS
    ensures RingCore(RetireFrom(s, i, wait, answers).state)
    decreases SLOTS - i
  {
    if i < SLOTS {
      var one := RetireOne(s, i, wait, wait, answers(i));
      RetireOneKeeps(s, i, wait, wait, answers(i));
      if one.ok { RetireFromRing(one.state, i + 1, wait, answers); }
    }
  }

  /** The first `i` slots have a value or nothing; after waiting, nothing. */
  predicate Settling(s: State, i: nat, wait: bool)
  {
    forall k :: 0 <= k < i && k < |s.slots| ==> s.slots[k].use != Unsignalled && (wait ==> s.slots[k].use == Idle)
  }

  /** A loop that succeeds has met no copy without a value; a waiting one leaves nothing in flight. */
  lemma {:induction false} RetireFromSettles(s: State, i: nat, wait: bool, answers: nat -> Answers)
    requires |s.slots| == SLOTS && i <= SLOTS && Settling(s, i, wait)
    ensures var r := RetireFrom(s, i, wait, answers);
            if r.ok then r.state.failed == s.failed && Settling(r.state, SLOTS, wait) else r.state.failed
    decreases SLOTS - i
  {
    if i < SLOTS {
      var one := RetireOne(s, i, wait, wait, answers(i));
      RetireOneRing(s, i, wait, wait, answers(i));
      if one.ok { RetireFromSettles(one.state, i + 1, wait, answers); }
    }
  }

  // --- Releasing and initialising ---

  lemma {:induction false} NoteReleasedSafe(slots: seq<Slot>, log: seq<Event>, i: nat)
    requires |slots| == SLOTS && i <= SLOTS && Safe(log)
    requires SlotLog(log, 0, Idle) && SlotLog(log, 1, Idle) && SlotLog(log, 2, Idle)
    ensures var more := NoteReleased(slots, log, i);
            Safe(more) && SlotLog(more, 0, Idle) && SlotLog(more, 1, Idle) && SlotLog(more, 2, Idle)
    decreases SLOTS - i
  {
    if i < SLOTS {
      var e := Released(i);
      IdleIsClear(log, i);
      SafeGrows(log, e);
      SlotLogGrows(log, e, 0, Idle);
      SlotLogGrows(log, e, 1, Idle);
      SlotLogGrows(log, e, 2, Idle);
      NoteReleasedSafe(slots, if slots[i].ready then log + [e] else log, i + 1);
    }
  }

  /** Nothing is in flight and everything is accounted for. */
  predicate Quiet(s: State)
  {
    |s.slots| == SLOTS && AllIdle(s.slots) && s.next < SLOTS && s.submitted == s.retired && LogOk(s)
  }

  lemma QuietIsRing(s: State)
    requires Quiet(s) && (s.fence ==> forall i :: 0 <= i < SLOTS ==> s.slots[i].ready)
    ensures RingCore(s) && LogOk(s) && NoneUnsignalled(s)
  {
  }

  lemma DrainedIsQuiet(s: State)
    requires RingCore(s) && LogOk(s) && AllIdle(s.slots)
    ensures Quiet(s)
  {
  }

  lemma ReleaseQuiet(s: State)
    requires Quiet(s)
    ensures Quiet(Release(s)) && !Release(s).fence && Release(s).failed == s.failed
  {
    NoteReleasedSafe(s.slots, s.log, 0);
  }

  lemma ReleaseKeeps(s: State)
    requires RingCore(s) && LogOk(s)
    ensures RingCore(Release(s)) && LogOk(Release(s)) && Release(s).failed == s.failed
    ensures NoneUnsignalled(s) ==> NoneUnsignalled(Release(s))
  {
    if AllIdle(s.slots) {
      DrainedIsQuiet(s);
      ReleaseQuiet(s);
      QuietIsRing(Release(s));
    }
  }

  /** What a step leaves behind: the ring and log, and on success no copy without a value and no new failure. */
  predicate Leaves(r: Result, failed: bool)
  {
    RingCore(r.state) && LogOk(r.state) && (r.ok ==> NoneUnsignalled(r.state) && r.state.failed == failed)
  }

  lemma CreateKeeps(s: State, c: CopyCall)
    requires Quiet(s) && !s.fence
    ensures Leaves(Create(s, c), s.failed) && (Create(s, c).ok ==> Create(s, c).state.fence)
  {
    QuietIsRing(s);
    if c.queue != 0 && c.direct {
      var t := s.(queue := c.queue, slots := Made(s.slots, c.made), fence := c.made >= |s.slots| && c.fenceMade);
      assert Quiet(t);
      QuietIsRing(t);
      ReleaseQuiet(t);
      QuietIsRing(Release(t));
    }
  }

  lemma RetireAllKeeps(s: State, wait: bool, answers: nat -> Answers)
    requires RingCore(s) && LogOk(s)
    ensures var r := RetireFrom(s, 0, wait, answers);
            && Leaves(r, s.failed) && (!r.ok ==> r.state.failed) && (r.ok && wait ==> Quiet(r.state))
  {
    RetireFromRing(s, 0, wait, answers);
    RetireFromLog(s, 0, wait, answers);
    RetireFromSettles(s, 0, wait, answers);
    var r := RetireFrom(s, 0, wait, answers);
    if r.ok && wait { DrainedIsQuiet(r.state); }
  }

  lemma InitializeKeeps(s: State, c: CopyCall)
    requires RingCore(s) && LogOk(s) && NoneUnsignalled(s)
    ensures Leaves(Initialize(s, c), s.failed) && (Initialize(s, c).ok ==> Initialize(s, c).state.fence)
  {
    if !(s.queue == c.queue && s.fence) {
      RetireAllKeeps(s, true, c.drain);
      var r := RetireFrom(s, 0, true, c.drain);
      if r.ok {
        ReleaseQuiet(r.state);
        CreateKeeps(Release(r.state), c);
      }
    }
  }

  // --- Copying ---

  lemma ResetKeeps(s: State)
    requires RingCore(s) && LogOk(s) && s.slots[s.next].use == Idle
    ensures LogOk(s.(log := s.log + [AllocatorReset(s.next)]))
  {
    var e := AllocatorReset(s.next);
    IdleIsClear(s.log, s.next);
    SafeGrows(s.log, e);
    SlotLogGrows(s.log, e, 0, s.slots[0].use);
    SlotLogGrows(s.log, e, 1, s.slots[1].use);
    SlotLogGrows(s.log, e, 2, s.slots[2].use);
  }

  lemma EventForSlot(s: State, e: Event, use: Use)
    requires LogOk(s) && s.next < SLOTS && !Reuses(e)
    requires e.Submitted? || e.SignalFailed? ==> e.slot == s.next
    requires SlotLog(s.log + [e], s.next, use)
    ensures LogOk(s.(slots := s.slots[s.next := s.slots[s.next].(use := use)], log := s.log + [e]))
  {
    SafeGrows(s.log, e);
    forall i | 0 <= i < SLOTS && i != s.next ensures SlotLog(s.log + [e], i, s.slots[i].use) {
      SlotLogGrows(s.log, e, i, s.slots[i].use);
    }
  }

  lemma SubmitRing(slots: seq<Slot>, next: nat, serial: nat, submitted: nat, retired: nat)
    requires Ring(slots, next, serial, true, submitted, retired) && slots[next].use == Idle
    requires forall i :: 0 <= i < SLOTS ==> slots[i].use != Unsignalled
    ensures Ring(slots[next := slots[next].(use := Signalled(serial + 1))], (next + 1) % SLOTS, serial + 1, true, submitted + 1, retired)
  {
  }

  lemma FailRing(slots: seq<Slot>, next: nat, serial: nat, submitted: nat, retired: nat)
    requires Ring(slots, next, serial, true, submitted, retired) && slots[next].use == Idle
    ensures Ring(slots[next := slots[next].(use := Unsignalled)], next, serial + 1, true, submitted, retired)
  {
  }

  lemma SubmitSignals(s: State, c: CopyCall)
    requires RingCore(s) && LogOk(s) && NoneUnsignalled(s) && s.fence && s.slots[s.next].use == Idle
    requires c.reset && c.closed && c.signal
    ensures Leaves(Submit(s, c), s.failed)
  {
    SubmitRing(s.slots, s.next, s.serial, s.submitted, s.retired);
    SubmittingOpens(s.log, s.next, s.serial + 1);
    EventForSlot(s, Submitted(s.next, s.serial + 1), Signalled(s.serial + 1));
  }

  lemma SubmitFails(s: State, c: CopyCall)
    requires RingCore(s) && LogOk(s) && s.fence && s.slots[s.next].use == Idle
    requires c.reset && c.closed && !c.signal
    ensures Leaves(Submit(s, c), s.failed)
  {
    FailRing(s.slots, s.next, s.serial, s.submitted, s.retired);
    FailingOpens(s.log, s.next);
    EventForSlot(s, SignalFailed(s.next), Unsignalled);
  }

  lemma SubmitKeeps(s: State, c: CopyCall)
    requires RingCore(s) && LogOk(s) && NoneUnsignalled(s) && s.fence && s.slots[s.next].use == Idle
    ensures Leaves(Submit(s, c), s.failed)
  {
    if c.reset && c.closed {
      if c.signal { SubmitSignals(s, c); } else { SubmitFails(s, c); }
    }
  }

  lemma RecordKeeps(s: State, c: CopyCall)
    requires RingCore(s) && LogOk(s) && NoneUnsignalled(s) && s.fence
    ensures Leaves(RecordOn(RetireOne(s, s.next, true, false, c.retire), c), s.failed)
  {
    var r := RetireOne(s, s.next, true, false, c.retire);
    RetireOneRing(s, s.next, true, false, c.retire);
    RetireOneKeeps(s, s.next, true, false, c.retire);
    RetireOneLog(s, s.next, true, false, c.retire);
    if r.ok {
      ResetKeeps(r.state);
      SubmitKeeps(r.state.(log := r.state.log + [AllocatorReset(r.state.next)]), c);
    }
  }

  lemma CopyKeeps(s: State, c: CopyCall)
    requires RingCore(s) && LogOk(s) && NoneUnsignalled(s)
    ensures Leaves(Copy(s, c), s.failed)
  {
    if c.sameShape {
      InitializeKeeps(s, c);
      var r := Initialize(s, c);
      if r.ok { RecordKeeps(r.state, c); }
    }
  }

  lemma ApplyKeeps(s: State, c: Call)
    requires c.Apply? && WellFormed(s)
    ensures WellFormed(ApplyStep(s, c).state)
  {
    if !s.failed {
      var t := s.(waits := s.waits.(copy := false));
      RetireAllKeeps(t, false, c.poll);
      var r := RetireFrom(t, 0, false, c.poll);
      if r.ok && c.mismatch { CopyKeeps(r.state, c.copy); }
    }
  }

  lemma DrainReleaseKeeps(s: State, drain: nat -> Answers)
    requires WellFormed(s)
    ensures WellFormed(DrainRelease(RetireFrom(s, 0, true, drain)).state)
  {
    RetireAllKeeps(s, true, drain);
    var r := RetireFrom(s, 0, true, drain);
    if r.ok { ReleaseKeeps(r.state); }
  }

  lemma StepKeeps(s: State, c: Call)
    requires WellFormed(s)
    ensures WellFormed(Step(s, c).state)
  {
    match c
    case Apply(_, _, _) => ApplyKeeps(s, c);
    case PrepareResize(drain) => DrainReleaseKeeps(s, drain);
    case Shutdown(drain) =>
      if !s.shutdown { DrainReleaseKeeps(s.(shutdown := true), drain); }
  }

  lemma {:induction false} AlwaysWellFormed(run: seq<Entry>, n: nat)
    requires IsRun(run) && n <= |run|
    ensures WellFormed(StateAt(run, n))
  {
    if n > 0 {
      AlwaysWellFormed(run, n - 1);
      assert Follows(run, n - 1);
      StepKeeps(run[n - 1].before, run[n - 1].call);
    }
  }

  /**
    In every run, whenever an allocator is reset or released the fence has been
    seen to reach the value of every copy that used it, and none of those copies
    was left without a value.
  */
  lemma NeverReusedInFlight(run: seq<Entry>, n: nat)
    requires IsRun(run) && n <= |run|
    ensures Safe(StateAt(run, n).log)
  {
    AlwaysWellFormed(run, n);
  }

  /** Copies submitted are retired or in flight, and those in flight signal increasing values from the next slot on. */
  lemma AccountedFor(run: seq<Entry>, n: nat)
    requires IsRun(run) && n <= |run|
    ensures var s := StateAt(run, n);
            && |s.slots| == SLOTS && s.next < SLOTS && s.submitted == s.retired + InFlight(s.slots)
            && RingOk(s.slots, s.next, s.serial)
  {
    AlwaysWellFormed(run, n);
  }

  /** After a Signal failed, its slot holds on to its objects for good and the ring stays failed. */
  lemma FailedSignalQuarantines(run: seq<Entry>, n: nat, m: nat, i: nat)
    requires IsRun(run) && n <= |run| && i < SLOTS
    requires m < |StateAt(run, n).log| && StateAt(run, n).log[m] == SignalFailed(i)
    ensures var s := StateAt(run, n);
            && s.failed && |s.slots| == SLOTS && s.slots[i].use == Unsignalled && s.slots[i].ready && s.fence
            && forall k :: m < k < |s.log| && Reuses(s.log[k]) ==> s.log[k].slot != i
  {
    AlwaysWellFormed(run, n);
    var s := StateAt(run, n);
    assert SlotLog(s.log, i, s.slots[i].use) && SlotOk(s.slots[i], s.fence, s.next == i);
    forall k | m < k < |s.log| && Reuses(s.log[k]) ensures s.log[k].slot != i {
      assert Clear(s.log, s.log[k].slot, k);
    }
  }
}
