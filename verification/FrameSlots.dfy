/**
  The three-slot lease allocator behind a GPU fence (src/rr_frame_slots.h).

  The class keeps the slots in an array and updates it in place; `Step` is the
  same behaviour on values.  A run is any sequence of calls on a fresh allocator.
*/
module FrameSlots {

  const MAX64 := 0xFFFF_FFFF_FFFF_FFFF

  type U64 = x: int | 0 <= x <= MAX64

  const MAX_DIMENSION := 8192

  datatype SlotState = Free | Recording | Ready | Submitted | Retained

  datatype Lease = Lease(index: nat, serial: U64)

  datatype FrameKey = FrameKey(frame: nat, epoch: nat, width: nat, height: nat)

  datatype FenceKey = FenceKey(device: nat, queue: nat, fence: nat)

  datatype Slot = Slot(
    state: SlotState, key: FrameKey, serial: U64, fenceValue: U64, commands: bool, evaluationTaken: bool)

  const NO_LEASE := Lease(3, 0)
  const NO_FRAME := FrameKey(0, 0, 0, 0)
  const NO_FENCE := FenceKey(0, 0, 0)
  const EMPTY_SLOT := Slot(Free, NO_FRAME, 0, 0, false, false)

  datatype State = State(
    slots: seq<Slot>, fence: FenceKey, serial: U64, lastSignal: U64, completed: U64, latest: FrameKey, lost: bool)

  const INITIAL := State([EMPTY_SLOT, EMPTY_SLOT, EMPTY_SLOT], NO_FENCE, 0, 0, 0, NO_FRAME, false)

  // --- The calls on values ---

  predicate Matches(slots: seq<Slot>, l: Lease)
  {
    l.index < |slots| && l.serial != 0 && slots[l.index].serial == l.serial
  }

  predicate KeyUsable(key: FrameKey)
  {
    && key.frame != 0 && key.epoch != 0
    && 0 < key.width <= MAX_DIMENSION && 0 < key.height <= MAX_DIMENSION
  }

  /** The order in which keys may be leased: newer epochs, or newer frames of one epoch and extent. */
  predicate InSequence(latest: FrameKey, key: FrameKey)
  {
    || latest.epoch < key.epoch
    || (key.epoch == latest.epoch && latest.frame < key.frame && key.width == latest.width && key.height == latest.height)
  }

  predicate InUse(slots: seq<Slot>, key: FrameKey)
  {
    exists i :: 0 <= i < |slots| && slots[i].state != Free && slots[i].key == key
  }

  predicate AllFree(slots: seq<Slot>)
  {
    forall i :: 0 <= i < |slots| ==> slots[i].state == Free
  }

  /** The first free slot at or after `i`; `|slots|` when there is none. */
  function FirstFree(slots: seq<Slot>, i: nat): (r: nat)
    requires i <= |slots|
    ensures i <= r <= |slots| && (r < |slots| ==> slots[r].state == Free)
    ensures forall k :: i <= k < r ==> slots[k].state != Free
    decreases |slots| - i
  {
    if i == |slots| || slots[i].state == Free then i else FirstFree(slots, i + 1)
  }

  function Retire(slots: seq<Slot>, completed: U64): (r: seq<Slot>)
    ensures |r| == |slots|
  {
    seq(|slots|, i requires 0 <= i < |slots| => RetireSlot(slots[i], completed))
  }

  function RetireSlot(s: Slot, completed: U64): Slot
  {
    if s.state == Submitted && s.fenceValue <= completed then s.(state := Free) else s
  }

  function BindStep(s: State, key: FenceKey): (State, bool)
  {
    if key.device == 0 || key.queue == 0 || key.fence == 0 then (s, false)
    else if s.fence == key then (s, !s.lost)
    else if !AllFree(s.slots) then (s, false)
    else (s.(fence := key, lastSignal := 0, completed := 0, latest := NO_FRAME, lost := false), true)
  }

  function CollectStep(s: State, key: FenceKey, completed: U64): (State, bool)
  {
    if s.fence != key || key.fence == 0 || s.lost then (s, false)
    else if completed == MAX64 then (s.(lost := true), false)
    else if completed < s.completed || completed > s.lastSignal then (s, false)
    else (s.(completed := completed, slots := Retire(s.slots, completed)), true)
  }

  function BeginStep(s: State, key: FrameKey): (State, Lease)
  {
    if s.lost || s.fence.fence == 0 || !KeyUsable(key) || s.serial == MAX64 then (s, NO_LEASE)
    else if !InSequence(s.latest, key) || InUse(s.slots, key) then (s, NO_LEASE)
    else
      var i := FirstFree(s.slots, 0);
      if i == |s.slots| then (s, NO_LEASE)
      else (s.(slots := s.slots[i := Slot(Recording, key, s.serial + 1, 0, false, false)],
               serial := s.serial + 1, latest := key), Lease(i, s.serial + 1))
  }

  function CommandsStep(s: State, l: Lease): (State, bool)
  {
    if !Matches(s.slots, l) || s.slots[l.index].state != Recording || s.lost then (s, false)
    else (s.(slots := s.slots[l.index := s.slots[l.index].(commands := true)]), true)
  }

  function GuidesStep(s: State, l: Lease): (State, bool)
  {
    if !Matches(s.slots, l) || s.slots[l.index].state != Recording || !s.slots[l.index].commands || s.lost then (s, false)
    else (s.(slots := s.slots[l.index := s.slots[l.index].(state := Ready)]), true)
  }

  predicate CanEvaluate(s: State, l: Lease, current: FrameKey)
  {
    && !s.lost && Matches(s.slots, l) && current == s.latest
    && s.slots[l.index].state == Ready && !s.slots[l.index].evaluationTaken && s.slots[l.index].key == current
  }

  function EvaluationStep(s: State, l: Lease, current: FrameKey): (State, bool)
  {
    if !CanEvaluate(s, l, current) then (s, false)
    else (s.(slots := s.slots[l.index := s.slots[l.index].(evaluationTaken := true)]), true)
  }

  predicate Active(state: SlotState) { state == Recording || state == Ready }

  function SubmitStep(s: State, l: Lease, value: U64): (State, bool)
  {
    if !Matches(s.slots, l) || !s.slots[l.index].commands || !Active(s.slots[l.index].state) || s.lost then (s, false)
    else if value == 0 || value == MAX64 || value <= s.lastSignal then
      (s.(slots := s.slots[l.index := s.slots[l.index].(state := Retained)]), false)
    else
      (s.(slots := s.slots[l.index := s.slots[l.index].(state := Submitted, fenceValue := value)], lastSignal := value), true)
  }

  function AbortStep(s: State, l: Lease): (State, bool)
  {
    if !Matches(s.slots, l) || !Active(s.slots[l.index].state) then (s, false)
    else
      (s.(slots := s.slots[l.index :=
            s.slots[l.index].(state := if s.slots[l.index].commands then Retained else Free)]), true)
  }

  datatype Call =
    | Bind(fence: FenceKey)
    | Collect(fence: FenceKey, completed: U64)
    | Begin(key: FrameKey)
    | CommandsStarted(lease: Lease)
    | GuidesReady(lease: Lease)
    | TakeEvaluation(lease: Lease, current: FrameKey)
    | Submit(lease: Lease, value: U64)
    | Abort(lease: Lease)

  // What a call returns; only `Begin` hands out a lease.
  datatype Outcome = Outcome(ok: bool, lease: Lease)

  function Returned(r: (State, bool)): (State, Outcome) { (r.0, Outcome(r.1, NO_LEASE)) }

  function Step(s: State, c: Call): (State, Outcome)
  {
    match c
    case Bind(fence) => Returned(BindStep(s, fence))
    case Collect(fence, completed) => Returned(CollectStep(s, fence, completed))
    case Begin(key) => var r := BeginStep(s, key); (r.0, Outcome(r.1 != NO_LEASE, r.1))
    case CommandsStarted(l) => Returned(CommandsStep(s, l))
    case GuidesReady(l) => Returned(GuidesStep(s, l))
    case TakeEvaluation(l, current) => Returned(EvaluationStep(s, l, current))
    case Submit(l, value) => Returned(SubmitStep(s, l, value))
    case Abort(l) => Returned(AbortStep(s, l))
  }

  // --- The class ---

  class FrameSlots {
    const slots: array<Slot>
    var fence: FenceKey
    var serial: U64
    var lastSignal: U64
    var completed: U64
    var latest: FrameKey
    var lost: bool

    ghost function Abstract(): State
      reads this, slots
    {
      State(slots[..], fence, serial, lastSignal, completed, latest, lost)
    }

    constructor ()
      ensures slots.Length == 3 && fresh(slots) && Abstract() == INITIAL
    {
      slots := new Slot[3](_ => EMPTY_SLOT);
      fence, serial, lastSignal, completed := NO_FENCE, 0, 0, 0;
      latest, lost := NO_FRAME, false;
      new;
      assert slots[..] == INITIAL.slots;
    }

    predicate Match(l: Lease)
      reads this, slots
      ensures Match(l) <==> Matches(slots[..], l)
    {
      l.index < slots.Length && l.serial != 0 && slots[l.index].serial == l.serial
    }

    method Bind(key: FenceKey) returns (ok: bool)
      modifies this
      ensures (Abstract(), ok) == BindStep(old(Abstract()), key)
    {
      if key.device == 0 || key.queue == 0 || key.fence == 0 { return false; }
      if fence == key { return !lost; }
      for i := 0 to slots.Length
        invariant forall k :: 0 <= k < i ==> slots[k].state == Free
        invariant Abstract() == old(Abstract())
      {
        if slots[i].state != Free {
          assert slots[..][i].state != Free;
          return false;
        }
      }
      assert AllFree(slots[..]);
      fence := key;
      lastSignal, completed := 0, 0;
      latest, lost := NO_FRAME, false;
      return true;
    }

    method Collect(key: FenceKey, done: U64) returns (ok: bool)
      modifies this, slots
      ensures (Abstract(), ok) == CollectStep(old(Abstract()), key, done)
    {
      if fence != key || key.fence == 0 || lost { return false; }
      if done == MAX64 {
        lost := true;
        return false;
      }
      if done < completed || done > lastSignal { return false; }
      completed := done;
      for i := 0 to slots.Length
        invariant forall k :: 0 <= k < i ==> slots[k] == RetireSlot(old(slots[..])[k], done)
        invariant forall k :: i <= k < slots.Length ==> slots[k] == old(slots[..])[k]
        invariant fence == old(fence) && serial == old(serial) && lastSignal == old(lastSignal) && completed == done
        invariant latest == old(latest) && lost == old(lost)
      {
        if slots[i].state == Submitted && slots[i].fenceValue <= done {
          slots[i] := slots[i].(state := Free);
        }
      }
      assert slots[..] == Retire(old(slots[..]), done);
      return true;
    }

    method Begin(key: FrameKey) returns (ok: bool, lease: Lease)
      requires slots.Length == 3
      modifies this, slots
      ensures (Abstract(), lease) == BeginStep(old(Abstract()), key) && ok == (lease != NO_LEASE)
    {
      lease := NO_LEASE;
      if lost || fence.fence == 0 || !KeyUsable(key) || serial == MAX64 { return false, lease; }
      if key.epoch < latest.epoch ||
         (key.epoch == latest.epoch &&
          (key.frame <= latest.frame || key.width != latest.width || key.height != latest.height)) {
        return false, lease;
      }
      for i := 0 to slots.Length
        invariant forall k :: 0 <= k < i ==> !(slots[k].state != Free && slots[k].key == key)
        invariant Abstract() == old(Abstract())
      {
        if slots[i].state != Free && slots[i].key == key {
          assert slots[..][i].state != Free && slots[..][i].key == key;
          return false, lease;
        }
      }
      for i := 0 to slots.Length
        invariant FirstFree(slots[..], 0) == FirstFree(slots[..], i)
        invariant Abstract() == old(Abstract())
      {
        if slots[i].state == Free {
          serial := serial + 1;
          slots[i] := Slot(Recording, key, serial, 0, false, false);
          latest := key;
          assert slots[..] == old(slots[..])[i := slots[i]];
          return true, Lease(i, serial);
        }
      }
      return false, lease;
    }

    method CommandsStarted(l: Lease) returns (ok: bool)
      modifies slots
      ensures (Abstract(), ok) == CommandsStep(old(Abstract()), l)
    {
      if !Match(l) || slots[l.index].state != Recording || lost { return false; }
      slots[l.index] := slots[l.index].(commands := true);
      return true;
    }

    method GuidesReady(l: Lease) returns (ok: bool)
      modifies slots
      ensures (Abstract(), ok) == GuidesStep(old(Abstract()), l)
    {
      if !Match(l) || slots[l.index].state != Recording || !slots[l.index].commands || lost { return false; }
      slots[l.index] := slots[l.index].(state := Ready);
      return true;
    }

    method TakeEvaluation(l: Lease, current: FrameKey) returns (ok: bool)
      modifies slots
      ensures (Abstract(), ok) == EvaluationStep(old(Abstract()), l, current)
    {
      if lost || l.index >= slots.Length || l.serial == 0 || current != latest { return false; }
      var s := slots[l.index];
      if !(s.serial == l.serial && s.state == Ready && !s.evaluationTaken && s.key == current) { return false; }
      slots[l.index] := s.(evaluationTaken := true);
      return true;
    }

    method Submit(l: Lease, value: U64) returns (ok: bool)
      modifies this, slots
      ensures (Abstract(), ok) == SubmitStep(old(Abstract()), l, value)
    {
      if !Match(l) || !slots[l.index].commands ||
         (slots[l.index].state != Recording && slots[l.index].state != Ready) || lost {
        return false;
      }
      if value == 0 || value == MAX64 || value <= lastSignal {
        slots[l.index] := slots[l.index].(state := Retained);
        return false;
      }
      slots[l.index] := slots[l.index].(state := Submitted, fenceValue := value);
      lastSignal := value;
      return true;
    }

    method Abort(l: Lease) returns (ok: bool)
      modifies slots
      ensures (Abstract(), ok) == AbortStep(old(Abstract()), l)
    {
      if !Match(l) || (slots[l.index].state != Recording && slots[l.index].state != Ready) { return false; }
      slots[l.index] := slots[l.index].(state := if slots[l.index].commands then Retained else Free);
      return true;
    }
  }
}
