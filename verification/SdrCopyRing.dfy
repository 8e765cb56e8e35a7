/**
  The three-slot ring of asynchronous copies (src/fg_sdr_correction.h:4-128).

  The class keeps the slots in an array; the functions on `State` are the same
  behaviour on values.  What the device answers is a parameter, so any call may
  fail.  `log` records, in order, what the fence was seen to have reached and what
  was done to each slot's command allocator.
*/
module SdrCopyRing {

  const SLOTS := 3

  /** The buffers a slot holds: none, those of a copy whose Signal failed, or of one that signals a value. */
  datatype Use = Idle | Unsignalled | Signalled(value: nat)

  /** `ready` when the slot has its allocator and list. */
  datatype Slot = Slot(ready: bool, use: Use)

  const NO_SLOT := Slot(false, Idle)

  datatype Event =
    | Observed(value: nat)
    | Submitted(slot: nat, value: nat)
    | SignalFailed(slot: nat)
    | AllocatorReset(slot: nat)
    | Released(slot: nat)

  /** How often draining and reusing a slot had to wait, and whether the last copy did. */
  datatype Waits = Waits(drain: nat, reuse: nat, copy: bool)

  const NO_WAITS := Waits(0, 0, false)

  datatype State = State(
    slots: seq<Slot>, queue: nat, fence: bool, serial: nat, submitted: nat, retired: nat, next: nat,
    failed: bool, shutdown: bool, waits: Waits, log: seq<Event>)

  const INITIAL := State([NO_SLOT, NO_SLOT, NO_SLOT], 0, false, 0, 0, 0, 0, false, false, NO_WAITS, [])

  /** A reading of the fence; `Removed` is the value a lost device reports. */
  datatype Reading = Removed | Reached(value: nat)

  /** What the device answers while one slot is retired. */
  datatype Answers = Answers(first: Reading, eventSet: bool, woken: bool, second: Reading)

  /** What it answers during one copy; `made` is how many slots get their objects on initialisation. */
  datatype CopyCall = CopyCall(
    sameShape: bool, queue: nat, direct: bool, drain: nat -> Answers, made: nat, fenceMade: bool,
    retire: Answers, reset: bool, closed: bool, signal: bool)

  datatype Call =
    | Apply(poll: nat -> Answers, mismatch: bool, copy: CopyCall)
    | PrepareResize(drain: nat -> Answers)
    | Shutdown(drain: nat -> Answers)

  datatype Result = Result(state: State, ok: bool)

  function Seen(log: seq<Event>, r: Reading): seq<Event>
  {
    if r.Reached? then log + [Observed(r.value)] else log
  }

  function Observe(s: State, r: Reading): State { s.(log := Seen(s.log, r)) }

  /** The reading shows that the value was reached. */
  predicate Reaches(r: Reading, value: nat) { r.Reached? && r.value >= value }

  function Retired(s: State, i: nat): State
    requires i < |s.slots|
  {
    s.(slots := s.slots[i := s.slots[i].(use := Idle)], retired := s.retired + 1)
  }

  /** A wait is counted by what it is for. */
  function Counted(w: Waits, draining: bool): Waits
  {
    if draining then w.(drain := w.drain + 1) else w.(reuse := w.reuse + 1, copy := true)
  }

  function Waiting(s: State, draining: bool): State { s.(waits := Counted(s.waits, draining)) }

  function RetireOne(s: State, i: nat, wait: bool, draining: bool, a: Answers): (r: Result)
    requires i < |s.slots|
    ensures |r.state.slots| == |s.slots|
  {
    match s.slots[i].use
    case Idle => Result(s, true)
    case Unsignalled => Result(s, false)
    case Signalled(value) =>
      if a.first.Removed? then Result(s, false)
      else if a.first.value >= value then Result(Retired(Observe(s, a.first), i), true)
      else if !wait then Result(Observe(s, a.first), true)
      else Await(Waiting(Observe(s, a.first), draining), i, value, a)
  }

  function Await(s: State, i: nat, value: nat, a: Answers): (r: Result)
    requires i < |s.slots|
    ensures |r.state.slots| == |s.slots|
  {
    if a.eventSet then Awaited(Observe(s, a.second), i, a.woken && Reaches(a.second, value)) else Result(s, false)
  }

  function Awaited(s: State, i: nat, done: bool): (r: Result)
    requires i < |s.slots|
    ensures |r.state.slots| == |s.slots|
  {
    if done then Result(Retired(s, i), true) else Result(s, false)
  }

  function Noted(r: Result): Result
  {
    if r.ok then r else Result(r.state.(failed := true), false)
  }

  /** Slots `i` and up are retired in turn; the first failure is final. */
  function RetireFrom(s: State, i: nat, wait: bool, answers: nat -> Answers): (r: Result)
    requires i <= |s.slots|
    ensures |r.state.slots| == |s.slots|
    decreases |s.slots| - i, 1
  {
    if i == |s.slots| then Result(s, true) else Continue(RetireOne(s, i, wait, wait, answers(i)), i, wait, answers)
  }

  function Continue(one: Result, i: nat, wait: bool, answers: nat -> Answers): (r: Result)
    requires i < |one.state.slots|
    ensures |r.state.slots| == |one.state.slots|
    decreases |one.state.slots| - i, 0
  {
    if one.ok then RetireFrom(one.state, i + 1, wait, answers) else Noted(one)
  }

  predicate AllIdle(slots: seq<Slot>)
  {
    forall i :: 0 <= i < |slots| ==> slots[i].use.Idle?
  }

  function NoteReleased(slots: seq<Slot>, log: seq<Event>, i: nat): seq<Event>
    requires i <= |slots|
    decreases |slots| - i
  {
    if i == |slots| then log
    else NoteReleased(slots, if slots[i].ready then log + [Released(i)] else log, i + 1)
  }

  /** Everything is given back, unless a copy is in flight. */
  function Release(s: State): State
  {
    if !AllIdle(s.slots) then s
    else s.(slots := seq(|s.slots|, _ => NO_SLOT), queue := 0, fence := false, serial := 0, next := 0,
            log := NoteReleased(s.slots, s.log, 0))
  }

  function Initialize(s: State, c: CopyCall): Result
  {
    if s.queue == c.queue && s.fence then Result(s, true) else AfterDrain(RetireFrom(s, 0, true, c.drain), c)
  }

  function AfterDrain(r: Result, c: CopyCall): Result
  {
    if r.ok then Create(Release(r.state), c) else r
  }

  function Create(s: State, c: CopyCall): Result
  {
    if c.queue == 0 || !c.direct then Result(s, false)
    else Created(s.(queue := c.queue, slots := Made(s.slots, c.made), fence := c.made >= |s.slots| && c.fenceMade))
  }

  function Made(slots: seq<Slot>, made: nat): (r: seq<Slot>)
    ensures |r| == |slots|
  {
    seq(|slots|, i requires 0 <= i < |slots| => slots[i].(ready := i < made))
  }

  function Created(s: State): Result
  {
    if s.fence then Result(s, true) else Result(Release(s), false)
  }

  function Copy(s: State, c: CopyCall): Result
  {
    if c.sameShape then CopyOn(Initialize(s, c), c) else Result(s, false)
  }

  function CopyOn(r: Result, c: CopyCall): Result
  {
    if r.ok && r.state.next < |r.state.slots| then RecordOn(RetireOne(r.state, r.state.next, true, false, c.retire), c)
    else Result(r.state, false)
  }

  function RecordOn(r: Result, c: CopyCall): Result
  {
    if r.ok then Submit(r.state.(log := r.state.log + [AllocatorReset(r.state.next)]), c) else r
  }

  function Submit(s: State, c: CopyCall): Result
  {
    if !c.reset || !c.closed || s.next >= |s.slots| then Result(s, false)
    else if c.signal then
      Result(s.(serial := s.serial + 1, slots := s.slots[s.next := s.slots[s.next].(use := Signalled(s.serial + 1))],
                submitted := s.submitted + 1, next := (s.next + 1) % SLOTS, log := s.log + [Submitted(s.next, s.serial + 1)]), true)
    else
      Result(s.(serial := s.serial + 1, slots := s.slots[s.next := s.slots[s.next].(use := Unsignalled)],
                log := s.log + [SignalFailed(s.next)]), false)
  }

  function ApplyStep(s: State, c: Call): Result
    requires c.Apply?
  {
    if s.failed then Result(s, false) else ApplyOn(RetireFrom(s.(waits := s.waits.(copy := false)), 0, false, c.poll), c)
  }

  function ApplyOn(r: Result, c: Call): Result
    requires c.Apply?
  {
    if r.ok && c.mismatch then Noted(Copy(r.state, c.copy)) else r
  }

  /** Resizing and shutting down give everything back once all copies are retired. */
  function DrainRelease(r: Result): Result
  {
    if r.ok then Result(Release(r.state), true) else r
  }

  function Step(s: State, c: Call): Result
  {
    match c
    case Apply(_, _, _) => ApplyStep(s, c)
    case PrepareResize(drain) => DrainRelease(RetireFrom(s, 0, true, drain))
    case Shutdown(drain) =>
      if s.shutdown then Result(s, true) else DrainRelease(RetireFrom(s.(shutdown := true), 0, true, drain))
  }

  // --- The ring in place ---

  class Correction {
    const slots: array<Slot>
    var queue: nat
    var fence: bool
    var serial: nat
    var submitted: nat
    var retired: nat
    var next: nat
    var failed: bool
    var shutdown: bool
    var drainWaits: nat
    var reuseWaits: nat
    var copyWait: bool
    ghost var log: seq<Event>

    constructor ()
      ensures fresh(slots) && Valid() && Current() == INITIAL
    {
      slots := new Slot[SLOTS](_ => NO_SLOT);
      queue, fence, serial, submitted, retired, next, failed, shutdown, log := 0, false, 0, 0, 0, 0, false, false, [];
      drainWaits, reuseWaits, copyWait := 0, 0, false;
      new;
      assert slots[..] == INITIAL.slots;
    }

    ghost predicate Valid()
      reads this
    {
      slots.Length == SLOTS && next < SLOTS
    }

    ghost function Current(): State
      reads this, slots
    {
      State(slots[..], queue, fence, serial, submitted, retired, next, failed, shutdown, Waits(drainWaits, reuseWaits, copyWait), log)
    }

    method RetireSlot(i: nat, wait: bool, draining: bool, a: Answers) returns (ok: bool)
      requires Valid() && i < SLOTS
      modifies this, slots
      ensures Valid() && next == old(next) && Result(Current(), ok) == RetireOne(old(Current()), i, wait, draining, a)
    {
      if slots[i].use.Idle? { return true; }
      if slots[i].use.Unsignalled? { return false; }
      var value := slots[i].use.value;
      if a.first.Removed? { return false; }
      log := log + [Observed(a.first.value)];
      if a.first.value < value {
        if !wait { return true; }
        var reached := WaitFor(value, draining, a);
        if !reached { return false; }
      }
      slots[i] := slots[i].(use := Idle);
      retired := retired + 1;
      return true;
    }

    /** Waits until the fence has reached the value, or gives up. */
    method WaitFor(value: nat, draining: bool, a: Answers) returns (reached: bool)
      requires Valid()
      modifies this`drainWaits, this`reuseWaits, this`copyWait, this`log
      ensures Valid() && reached == (a.eventSet && a.woken && Reaches(a.second, value))
      ensures Current() == if a.eventSet then Observe(Waiting(old(Current()), draining), a.second) else Waiting(old(Current()), draining)
    {
      if draining { drainWaits := drainWaits + 1; } else { reuseWaits, copyWait := reuseWaits + 1, true; }
      if !a.eventSet { return false; }
      if a.second.Reached? { log := log + [Observed(a.second.value)]; }
      return a.woken && a.second.Reached? && a.second.value >= value;
    }

    /** The loops of `Drain` (waiting) and of `Apply` (not waiting). */
    method RetireSlots(wait: bool, answers: nat -> Answers) returns (ok: bool)
      requires Valid()
      modifies this, slots
      ensures Valid() && next == old(next) && Result(Current(), ok) == RetireFrom(old(Current()), 0, wait, answers)
    {
      var i := 0;
      while i < SLOTS
        invariant 0 <= i <= SLOTS && Valid() && next == old(next)
        invariant RetireFrom(old(Current()), 0, wait, answers) == RetireFrom(Current(), i, wait, answers)
      {
        ok := RetireSlot(i, wait, wait, answers(i));
        if !ok { failed := true; return; }
        i := i + 1;
      }
      return true;
    }

    method ReleaseAll()
      requires Valid()
      modifies this, slots
      ensures Valid() && Current() == Release(old(Current()))
    {
      var i := 0;
      while i < SLOTS
        invariant 0 <= i <= SLOTS && forall k :: 0 <= k < i ==> slots[k].use.Idle?
      {
        if !slots[i].use.Idle? { return; }
        i := i + 1;
      }
      FreeSlots();
      queue, fence, serial, next := 0, false, 0, 0;
    }

    method FreeSlots()
      requires Valid()
      modifies this`log, slots
      ensures log == NoteReleased(old(slots[..]), old(log), 0) && slots[..] == seq(SLOTS, _ => NO_SLOT)
    {
      var i := 0;
      while i < SLOTS
        invariant 0 <= i <= SLOTS
        invariant forall k :: 0 <= k < i ==> slots[k] == NO_SLOT
        invariant forall k :: i <= k < SLOTS ==> slots[k] == old(slots[..])[k]
        invariant NoteReleased(old(slots[..]), old(log), 0) == NoteReleased(old(slots[..]), log, i)
      {
        if slots[i].ready { log := log + [Released(i)]; }
        slots[i] := NO_SLOT;
        i := i + 1;
      }
    }

    method InitializeOn(c: CopyCall) returns (ok: bool)
      requires Valid()
      modifies this, slots
      ensures Valid() && Result(Current(), ok) == Initialize(old(Current()), c)
    {
      if queue == c.queue && fence { return true; }
      ok := RetireSlots(true, c.drain);
      if !ok { return; }
      ReleaseAll();
      ok := CreateOn(c);
    }

    method CreateOn(c: CopyCall) returns (ok: bool)
      requires Valid()
      modifies this, slots
      ensures Valid() && Result(Current(), ok) == Create(old(Current()), c)
    {
      if c.queue == 0 || !c.direct { return false; }
      queue := c.queue;
      var i := 0;
      while i < SLOTS
        invariant 0 <= i <= SLOTS && Valid()
        invariant Current().(slots := []) == old(Current()).(slots := [], queue := c.queue)
        invariant forall k :: 0 <= k < i ==> slots[k] == Made(old(slots[..]), c.made)[k]
        invariant forall k :: i <= k < SLOTS ==> slots[k] == old(slots[..])[k]
      {
        slots[i] := slots[i].(ready := i < c.made);
        i := i + 1;
      }
      fence := c.made >= SLOTS && c.fenceMade;
      assert slots[..] == Made(old(slots[..]), c.made);
      if !fence { ReleaseAll(); }
      return fence;
    }

    method CopyBuffers(c: CopyCall) returns (ok: bool)
      requires Valid()
      modifies this, slots
      ensures Valid() && Result(Current(), ok) == Copy(old(Current()), c)
    {
      if !c.sameShape { return false; }
      ok := InitializeOn(c);
      if !ok { return; }
      ok := RetireSlot(next, true, false, c.retire);
      if !ok { return; }
      log := log + [AllocatorReset(next)];
      ok := SubmitOn(c);
    }

    method SubmitOn(c: CopyCall) returns (ok: bool)
      requires Valid()
      modifies this, slots
      ensures Valid() && Result(Current(), ok) == Submit(old(Current()), c)
    {
      if !c.reset || !c.closed { return false; }
      slots[next] := slots[next].(use := Unsignalled);
      serial := serial + 1;
      if !c.signal {
        log := log + [SignalFailed(next)];
        return false;
      }
      slots[next] := slots[next].(use := Signalled(serial));
      log := log + [Submitted(next, serial)];
      submitted := submitted + 1;
      next := (next + 1) % SLOTS;
      return true;
    }

    method ApplyCorrection(c: Call) returns (ok: bool)
      requires Valid() && c.Apply?
      modifies this, slots
      ensures Valid() && Result(Current(), ok) == Step(old(Current()), c)
    {
      if failed { return false; }
      copyWait := false;
      ok := RetireSlots(false, c.poll);
      if !ok || !c.mismatch { return; }
      ok := CopyBuffers(c.copy);
      if !ok { failed := true; }
    }

    method Resize(c: Call) returns (ok: bool)
      requires Valid() && c.PrepareResize?
      modifies this, slots
      ensures Valid() && Result(Current(), ok) == Step(old(Current()), c)
    {
      ok := RetireSlots(true, c.drain);
      if ok { ReleaseAll(); }
    }

    method ShutDown(c: Call) returns (ok: bool)
      requires Valid() && c.Shutdown?
      modifies this, slots
      ensures Valid() && Result(Current(), ok) == Step(old(Current()), c)
    {
      if shutdown { return true; }
      shutdown := true;
      ok := RetireSlots(true, c.drain);
      if ok { ReleaseAll(); }
    }
  }
}
