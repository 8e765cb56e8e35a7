/**
  What the copy ring does when the device cooperates: every mismatch is copied,
  every copy retired, and a resize or shutdown gives everything back; and when it
  fails instead (src/fg_sdr_correction.h:20-128).
*/
module SdrRingProgress {
  import opened SdrCopyRing
  import opened SdrRingHistory

  // --- Retiring ---

  /** A reading, and a wait that succeeds and shows `serial` reached. */
  predicate Patient(a: Answers, serial: nat)
  {
    a.first.Reached? && a.eventSet && a.woken && a.second.Reached? && a.second.value >= serial
  }

  /** What polling leaves in a slot, by the reading made for it. */
  function Polled(use: Use, r: Reading): Use
  {
    if use.Signalled? && r.Reached? && r.value >= use.value then Idle else use
  }

  /** The slot's reading succeeds, if there is one to make. */
  predicate Readable(use: Use, a: Answers) { use == Idle || (use.Signalled? && a.first.Reached?) }

  /** Everything but the slots, the count of retired copies, the waits and the log is as it was. */
  predicate SameRing(s: State, t: State)
  {
    SameOutside(s, t) && t.failed == s.failed && |t.slots| == |s.slots| && forall k :: 0 <= k < |s.slots| ==> t.slots[k].ready == s.slots[k].ready
  }

  lemma PollOne(s: State, i: nat, a: Answers)
    requires i < |s.slots|
    ensures var r := RetireOne(s, i, false, false, a);
            && (r.ok <==> Readable(s.slots[i].use, a))
            && (r.ok ==> SameRing(s, r.state) && r.state.slots == s.slots[i := s.slots[i].(use := Polled(s.slots[i].use, a.first))])
            && (!r.ok ==> r.state == s)
  {
  }

  /** The fence shows the slot's value not to be reached yet. */
  predicate Unreached(use: Use, r: Reading) { use.Signalled? && r.Reached? && r.value < use.value }

  function Seen(r: Reading): seq<Event> { if r.Reached? then [Observed(r.value)] else [] }

  /** Retiring a slot notes exactly the readings it makes, and counts a wait exactly when it has to wait. */
  lemma ReadingsNoted(s: State, i: nat, wait: bool, draining: bool, a: Answers)
    requires i < |s.slots|
    ensures var t, use := RetireOne(s, i, wait, draining, a).state, s.slots[i].use;
            var waits := wait && Unreached(use, a.first);
            && t.log == s.log + (if use.Signalled? then Seen(a.first) else []) + (if waits && a.eventSet then Seen(a.second) else [])
            && t.waits == if !waits then s.waits
                          else if draining then Waits(s.waits.drain + 1, s.waits.reuse, s.waits.copy)
                          else Waits(s.waits.drain, s.waits.reuse + 1, true)
  {
  }

  lemma {:induction false} PollFrom(s: State, i: nat, answers: nat -> Answers)
    requires |s.slots| == 3 && i <= 3
    ensures var r := RetireFrom(s, i, false, answers);
            && (r.ok <==> forall k :: i <= k < 3 ==> Readable(s.slots[k].use, answers(k)))
            && (r.ok ==> SameRing(s, r.state) &&
                         forall k: nat :: k < 3 ==> r.state.slots[k].use == if k < i then s.slots[k].use else Polled(s.slots[k].use, answers(k).first))
            && (!r.ok ==> r.state.failed && r.state.submitted == s.submitted)
    decreases 3 - i
  {
    if i < 3 {
      PollOne(s, i, answers(i));
      var one := RetireOne(s, i, false, false, answers(i));
      if one.ok { PollFrom(one.state, i + 1, answers); }
    }
  }

  lemma DrainOne(s: State, i: nat, draining: bool, a: Answers)
    requires i < |s.slots| && s.slots[i].use != Unsignalled
    requires s.slots[i].use.Signalled? ==> Patient(a, s.slots[i].use.value)
    ensures var r := RetireOne(s, i, true, draining, a);
            r.ok && SameRing(s, r.state) && r.state.slots == s.slots[i := s.slots[i].(use := Idle)]
  {
  }

  lemma {:induction false} DrainFrom(s: State, i: nat, answers: nat -> Answers)
    requires |s.slots| == 3 && i <= 3 && NoneUnsignalled(s)
    requires forall k: nat :: i <= k < 3 && s.slots[k].use.Signalled? ==> Patient(answers(k), s.slots[k].use.value)
    requires forall k: nat :: k < i ==> s.slots[k].use == Idle
    ensures var r := RetireFrom(s, i, true, answers); r.ok && SameRing(s, r.state) && AllIdle(r.state.slots)
    decreases 3 - i
  {
    if i < 3 {
      DrainOne(s, i, true, answers(i));
      DrainFrom(RetireOne(s, i, true, true, answers(i)).state, i + 1, answers);
    }
  }

  // --- One copy ---

  /** Nothing gets in the way of a copy on this queue. */
  predicate Works(c: CopyCall)
  {
    c.sameShape && c.queue != 0 && c.direct && c.made >= 3 && c.fenceMade && c.reset && c.closed && c.signal
  }

  /** The queue is the one the ring was made for. */
  predicate Made(s: State, queue: nat) { s.queue == queue && s.fence }

  /** `t` is `s` with one more copy in flight, in the next slot and with the next value. */
  predicate OneMore(s: State, t: State)
    requires |s.slots| == 3 && s.next < 3
  {
    && t.submitted == s.submitted + 1 && t.serial == s.serial + 1 && t.next == (s.next + 1) % 3 && !t.failed
    && t.queue == s.queue && t.fence && t.shutdown == s.shutdown
    && t.slots == s.slots[s.next := Slot(true, Signalled(s.serial + 1))]
    && EndsWith(t.log, [AllocatorReset(s.next), Submitted(s.next, s.serial + 1)])
  }

  predicate EndsWith(log: seq<Event>, tail: seq<Event>)
  {
    |log| >= |tail| && log[|log| - |tail|..] == tail
  }

  lemma SubmitOneMore(s: State, c: CopyCall)
    requires |s.slots| == 3 && s.next < 3 && s.fence && s.slots[s.next].ready && !s.failed && Works(c)
    requires EndsWith(s.log, [AllocatorReset(s.next)])
    ensures Submit(s, c).ok && OneMore(s, Submit(s, c).state)
  {
    var log, e := s.log, Submitted(s.next, s.serial + 1);
    assert (log + [e])[|log| - 1..] == log[|log| - 1..] + [e];
  }

  lemma CopySubmits(s: State, c: CopyCall)
    requires WellFormed(s) && !s.failed && Made(s, c.queue) && Works(c) && Patient(c.retire, s.serial)
    ensures Copy(s, c).ok && OneMore(s, Copy(s, c).state)
  {
    var use := s.slots[s.next].use;
    assert UpTo(Place(s.slots, s.next, 0), s.serial);
    DrainOne(s, s.next, false, c.retire);
    var t := RetireOne(s, s.next, true, false, c.retire).state;
    SubmitOneMore(t.(log := t.log + [AllocatorReset(t.next)]), c);
    var u := Submit(t.(log := t.log + [AllocatorReset(t.next)]), c).state;
    assert SlotOk(s.slots[s.next], s.fence, true);
    assert u.slots == s.slots[s.next := Slot(true, Signalled(s.serial + 1))];
  }

  /** The ring once its objects were made on another queue and the first copy submitted. */
  predicate Fresh(s: State, t: State, queue: nat)
  {
    && t.submitted == s.submitted + 1 && t.serial == 1 && t.next == 1 && !t.failed
    && t.queue == queue && t.fence && t.shutdown == s.shutdown
    && t.slots == [Slot(true, Signalled(1)), Slot(true, Idle), Slot(true, Idle)]
    && EndsWith(t.log, [AllocatorReset(0), Submitted(0, 1)])
  }

  lemma CreateMakes(s: State, c: CopyCall)
    requires |s.slots| == 3 && (forall k :: 0 <= k < 3 ==> s.slots[k] == NO_SLOT) && Works(c)
    ensures Create(s, c) == Result(s.(queue := c.queue, fence := true, slots := [Slot(true, Idle), Slot(true, Idle), Slot(true, Idle)]), true)
  {
    assert SdrCopyRing.Made(s.slots, c.made) == [Slot(true, Idle), Slot(true, Idle), Slot(true, Idle)];
  }

  lemma CopyStarts(s: State, c: CopyCall)
    requires WellFormed(s) && !s.failed && !Made(s, c.queue) && Works(c)
    requires forall k: nat :: k < 3 && s.slots[k].use.Signalled? ==> Patient(c.drain(k), s.serial)
    ensures Copy(s, c).ok && Fresh(s, Copy(s, c).state, c.queue)
  {
    PlacesUpTo(s);
    DrainFrom(s, 0, c.drain);
    var drained := RetireFrom(s, 0, true, c.drain).state;
    var released := Release(drained);
    CreateMakes(released, c);
    var made := Create(released, c).state;
    DrainOne(made, 0, false, c.retire);
    var t := RetireOne(made, 0, true, false, c.retire).state;
    SubmitOneMore(t.(log := t.log + [AllocatorReset(0)]), c);
  }

  lemma PlacesUpTo(s: State)
    requires WellFormed(s)
    ensures forall k: nat :: k < 3 ==> UpTo(s.slots[k], s.serial)
  {
    assert UpTo(Place(s.slots, s.next, 0), s.serial) && UpTo(Place(s.slots, s.next, 1), s.serial) && UpTo(Place(s.slots, s.next, 2), s.serial);
  }

  /** Retiring a slot succeeds exactly when it holds nothing, or its value is seen to be reached, at once or after waiting. */
  lemma RetireOkIff(s: State, i: nat, draining: bool, a: Answers)
    requires i < |s.slots|
    ensures RetireOne(s, i, true, draining, a).ok <==>
            s.slots[i].use == Idle ||
            (s.slots[i].use.Signalled? && a.first.Reached? &&
             (a.first.value >= s.slots[i].use.value || (a.eventSet && a.woken && Reaches(a.second, s.slots[i].use.value))))
  {
  }

  /** The ring is made for the queue, or can be. */
  predicate Obtains(s: State, c: CopyCall)
  {
    Made(s, c.queue) ||
    (RetireFrom(s, 0, true, c.drain).ok && c.queue != 0 && c.direct && c.made >= 3 && c.fenceMade)
  }

  lemma InitializeOkIff(s: State, c: CopyCall)
    requires WellFormed(s) && NoneUnsignalled(s)
    ensures Initialize(s, c).ok <==> Obtains(s, c)
  {
    var r := RetireFrom(s, 0, true, c.drain);
    RetireAllKeeps(s, true, c.drain);
    RetireFromSettles(s, 0, true, c.drain);
    if r.ok { assert |Release(r.state).slots| == 3; }
  }

  /** A copy is submitted exactly when all of this goes well; otherwise no copy is counted. */
  lemma CopyOkIff(s: State, c: CopyCall)
    requires WellFormed(s) && NoneUnsignalled(s)
    ensures Copy(s, c).ok <==>
            && c.sameShape && Obtains(s, c)
            && (var t := Initialize(s, c).state; t.next < |t.slots| && RetireOne(t, t.next, true, false, c.retire).ok)
            && c.reset && c.closed && c.signal
    ensures !Copy(s, c).ok ==> Copy(s, c).state.submitted == s.submitted
  {
    InitializeOkIff(s, c);
    RetireAllKeeps(s, true, c.drain);
    RetireFromRing(s, 0, true, c.drain);
    SubmittedStays(s, 0, c.drain);
    var t := Initialize(s, c).state;
    if t.next < |t.slots| { RetireOneRing(t, t.next, true, false, c.retire); }
  }

  lemma {:induction false} SubmittedStays(s: State, i: nat, answers: nat -> Answers)
    requires i <= |s.slots|
    ensures RetireFrom(s, i, true, answers).state.submitted == s.submitted
    decreases |s.slots| - i
  {
    if i < |s.slots| {
      RetireOneRing(s, i, true, true, answers(i));
      SubmittedStays(RetireOne(s, i, true, true, answers(i)).state, i + 1, answers);
    }
  }

  /** A copy whose Signal fails was executed all the same: its slot keeps the buffers without a value to wait for. */
  lemma SignalFailure(s: State, c: CopyCall)
    requires WellFormed(s) && !s.failed && Made(s, c.queue) && Works(c.(signal := true)) && !c.signal && Patient(c.retire, s.serial)
    ensures var Result(t, ok) := Copy(s, c);
            && !ok && t.slots == s.slots[s.next := Slot(true, Unsignalled)] && t.serial == s.serial + 1 && t.next == s.next
            && t.submitted == s.submitted && EndsWith(t.log, [AllocatorReset(s.next), SignalFailed(s.next)])
  {
    assert UpTo(Place(s.slots, s.next, 0), s.serial);
    DrainOne(s, s.next, false, c.retire);
    var t := RetireOne(s, s.next, true, false, c.retire).state;
    var log := t.log + [AllocatorReset(s.next)];
    assert (log + [SignalFailed(s.next)])[|log| - 1..] == [AllocatorReset(s.next), SignalFailed(s.next)];
    assert SlotOk(s.slots[s.next], s.fence, true);
    assert Copy(s, c).state.slots == s.slots[s.next := Slot(true, Unsignalled)];
  }

  // --- One correction ---

  /** The poll of every slot succeeds. */
  predicate Polls(s: State, poll: nat -> Answers)
  {
    forall k: nat :: k < |s.slots| ==> Readable(s.slots[k].use, poll(k))
  }

  /** The ring after polling: what was seen to complete is retired. */
  predicate Retires(s: State, t: State, poll: nat -> Answers)
  {
    SameRing(s, t) && forall k: nat :: k < |s.slots| ==> t.slots[k].use == Polled(s.slots[k].use, poll(k).first)
  }

  /** A correction without a mismatch retires what completed and submits nothing; it fails exactly when a slot cannot be polled. */
  lemma ApplyPolls(s: State, c: Call)
    requires c.Apply? && WellFormed(s) && !s.failed && !c.mismatch
    ensures var Result(t, ok) := Step(s, c);
            (ok <==> Polls(s, c.poll)) && (ok ==> Retires(s, t, c.poll)) && (!ok ==> t.failed) && t.submitted == s.submitted
  {
    PollFrom(s.(waits := s.waits.(copy := false)), 0, c.poll);
  }

  /** A mismatch on a device that cooperates is copied: one more copy is in flight, behind those that have not completed. */
  lemma ApplySubmits(s: State, c: Call)
    requires c.Apply? && WellFormed(s) && !s.failed && c.mismatch && Polls(s, c.poll)
    requires Made(s, c.copy.queue) && Works(c.copy) && Patient(c.copy.retire, s.serial)
    ensures var polled := RetireFrom(s.(waits := s.waits.(copy := false)), 0, false, c.poll).state;
            Retires(s, polled, c.poll) && Step(s, c).ok && OneMore(polled, Step(s, c).state)
  {
    var start := s.(waits := s.waits.(copy := false));
    PollFrom(start, 0, c.poll);
    RetireAllKeeps(start, false, c.poll);
    CopySubmits(RetireFrom(start, 0, false, c.poll).state, c.copy);
  }

  /** The first copy, or the first on another queue, makes the ring anew. */
  lemma ApplyStarts(s: State, c: Call)
    requires c.Apply? && WellFormed(s) && !s.failed && c.mismatch && Polls(s, c.poll)
    requires !Made(s, c.copy.queue) && Works(c.copy) && forall k: nat :: k < 3 ==> Patient(c.copy.drain(k), s.serial)
    ensures Step(s, c).ok && Fresh(s, Step(s, c).state, c.copy.queue)
  {
    var start := s.(waits := s.waits.(copy := false));
    PollFrom(start, 0, c.poll);
    RetireAllKeeps(start, false, c.poll);
    CopyStarts(RetireFrom(start, 0, false, c.poll).state, c.copy);
  }

  /** A correction that does not succeed is the last: the ring is failed exactly when it reports so. */
  lemma FailureNoted(s: State, c: Call)
    requires c.Apply? && WellFormed(s) && !s.failed
    ensures Step(s, c).ok <==> !Step(s, c).state.failed
  {
    var start := s.(waits := s.waits.(copy := false));
    PollFrom(start, 0, c.poll);
    RetireAllKeeps(start, false, c.poll);
    var r := RetireFrom(start, 0, false, c.poll);
    if r.ok && c.mismatch { CopyKeeps(r.state, c.copy); }
  }

  /** Once failed, a correction does nothing. */
  lemma FailedIsFinal(s: State, c: Call)
    requires c.Apply? && s.failed
    ensures Step(s, c) == Result(s, false)
  {
  }

  // --- Many corrections ---

  /** The `n`-th of a run of mismatches on one queue, which the device goes along with. */
  predicate GoesAlong(c: Call, queue: nat, n: nat)
  {
    && c.Apply? && c.mismatch && Works(c.copy) && c.copy.queue == queue && Patient(c.copy.retire, n)
    && forall k: nat :: k < 3 ==> c.poll(k).first.Reached? && Patient(c.copy.drain(k), n)
  }

  function Then(r: Result, c: Call): Result
  {
    Result(Step(r.state, c).state, r.ok && Step(r.state, c).ok)
  }

  function AfterCalls(s: State, cs: seq<Call>, n: nat): Result
    requires n <= |cs|
  {
    if n == 0 then Result(s, true) else Then(AfterCalls(s, cs, n - 1), cs[n - 1])
  }

  /** `n` copies were submitted on one queue. */
  predicate CopiesAt(t: State, queue: nat, n: nat)
  {
    && WellFormed(t) && !t.failed && t.submitted == t.serial == n
    && if n == 0 then !t.fence else Made(t, queue)
  }

  predicate AllCopied(r: Result, queue: nat, n: nat) { r.ok && CopiesAt(r.state, queue, n) }

  lemma NextCopy(r: Result, c: Call, queue: nat, n: nat)
    requires AllCopied(r, queue, n) && GoesAlong(c, queue, n)
    ensures AllCopied(Then(r, c), queue, n + 1)
  {
    StepKeeps(r.state, c);
    if n == 0 { ApplyStarts(r.state, c); } else { ApplySubmits(r.state, c); }
  }

  lemma NoCopyYet(queue: nat)
    ensures AllCopied(Result(INITIAL, true), queue, 0)
  {
    AlwaysWellFormed([], 0);
  }

  /** Every one of any number of mismatches is copied. */
  lemma {:induction false} EveryMismatchCopied(cs: seq<Call>, queue: nat, n: nat)
    requires n <= |cs| && forall i :: 0 <= i < |cs| ==> GoesAlong(cs[i], queue, i)
    ensures AllCopied(AfterCalls(INITIAL, cs, n), queue, n)
  {
    if n == 0 {
      NoCopyYet(queue);
    } else {
      EveryMismatchCopied(cs, queue, n - 1);
      NextCopy(AfterCalls(INITIAL, cs, n - 1), cs[n - 1], queue, n - 1);
    }
  }

  // --- Giving everything back ---

  /** Nothing is held and nothing in flight. */
  predicate Empty(s: State, t: State)
  {
    && t.slots == [NO_SLOT, NO_SLOT, NO_SLOT] && t.queue == 0 && !t.fence && t.serial == 0 && t.next == 0
    && t.submitted == t.retired == s.submitted && t.failed == s.failed
  }

  lemma DrainEmpties(s: State, drain: nat -> Answers)
    requires WellFormed(s) && NoneUnsignalled(s) && forall k: nat :: k < 3 ==> Patient(drain(k), s.serial)
    ensures var r := DrainRelease(RetireFrom(s, 0, true, drain)); r.ok && Empty(s, r.state) && r.state.shutdown == s.shutdown
  {
    PlacesUpTo(s);
    DrainFrom(s, 0, drain);
    RetireFromRing(s, 0, true, drain);
    var drained := RetireFrom(s, 0, true, drain).state;
    assert Release(drained).slots == [NO_SLOT, NO_SLOT, NO_SLOT];
  }

  /** A resize waits for every copy and then holds nothing, so the next mismatch starts anew. */
  lemma ResizeEmpties(s: State, c: Call)
    requires c.PrepareResize? && WellFormed(s) && NoneUnsignalled(s) && forall k: nat :: k < 3 ==> Patient(c.drain(k), s.serial)
    ensures Step(s, c).ok && Empty(s, Step(s, c).state)
  {
    DrainEmpties(s, c.drain);
  }

  /** So does the first shutdown; any later one does nothing. */
  lemma ShutdownEmpties(s: State, c: Call)
    requires c.Shutdown? && WellFormed(s) && NoneUnsignalled(s) && forall k: nat :: k < 3 ==> Patient(c.drain(k), s.serial)
    ensures if s.shutdown then Step(s, c) == Result(s, true) else Step(s, c).ok && Empty(s, Step(s, c).state) && Step(s, c).state.shutdown
  {
    if !s.shutdown { DrainEmpties(s.(shutdown := true), c.drain); }
  }
}
