/**
  The life of the replay targets: frames are prepared, the extent changes, and
  old targets are destroyed once a fence signalled after a later Present has
  completed (src/rr_diffuse_resize.h:9-53, src/rr_diffuse_replay.h:64-209).

  The functions on `State` are the methods' behaviour on values; what the engine
  and the device answer is a parameter.  `log` records the uses of the targets,
  the signals and readings of the fence, and the destructions, in order.
*/
module DiffuseResize {
  import opened ReplayStage

  const TARGETS := 3
  const CHARACTER := 2

  datatype Reading = Removed | Reached(value: nat)

  datatype Event =
    | Used(present: nat)
    | Signalled(present: nat, value: nat)
    | Seen(value: nat)
    | Destroyed(target: nat)

  /** `targets` tells which of the two replay targets and the character target exist. */
  datatype Life = Life(
    stage: Stage, made: bool, width: nat, height: nat, frame: nat, lastUse: nat, signal: nat, retireFence: nat,
    pending: bool, targets: seq<bool>, log: seq<Event>)

  const UNMADE := Life(Idle, false, 0, 0, 0, 0, 0, 0, false, [false, false, false], [])

  /** What comes of selecting batches: some are accepted, none is, or an exception ends it. */
  datatype Selection = Accepted | Empty | Raised

  /** One prepared frame: what is asked for and what is answered. */
  datatype Frame = Frame(
    frame: nat, width: nat, height: nat, present: nat, onThread: bool, ready: bool, ownerMade: bool, fenceMade: bool, sameQueue: bool,
    reading: Reading, destroys: nat -> bool, selection: Selection, targets: nat, creates: nat -> bool, clears: nat -> bool,
    character: bool)

  datatype Call =
    | Prepare(frame: Frame)
    | AfterPresent(present: nat, onThread: bool, signalled: bool)
    | Join(clean: bool)
    | LiveFailure

  datatype Result = Result(life: Life, ok: bool)

  function Stop(s: Life): Life { s.(stage := Stopped) }

  // --- Resizing ---

  function ResizeStep(s: Life, f: Frame): Result
  {
    if s.width == f.width && s.height == f.height && !s.pending then Result(s, true)
    else if !f.onThread || s.stage == Recording then Result(s, false)
    else RetireStep(if s.pending then s else s.(pending := true, stage := Idle), f)
  }

  function RetireStep(s: Life, f: Frame): Result
  {
    if s.retireFence == 0 then Result(s, false)
    else if f.reading.Removed? then Result(Stop(s), false)
    else if f.reading.value < s.retireFence then Result(s.(log := s.log + [Seen(f.reading.value)]), false)
    else Resized(DestroyFrom(s.(log := s.log + [Seen(f.reading.value)]), 0, f.destroys), f)
  }

  /** The targets from `i` on are destroyed in turn; the first failure stops the replay. */
  function DestroyFrom(s: Life, i: nat, destroys: nat -> bool): Result
    requires i <= |s.targets|
    decreases |s.targets| - i
  {
    if i == |s.targets| then Result(s, true)
    else if !s.targets[i] then DestroyFrom(s, i + 1, destroys)
    else if !destroys(i) then Result(Stop(s), false)
    else DestroyFrom(s.(targets := s.targets[i := false], log := s.log + [Destroyed(i)]), i + 1, destroys)
  }

  function Resized(r: Result, f: Frame): Result
  {
    if r.ok then Result(r.life.(width := f.width, height := f.height, retireFence := 0, pending := false), true) else r
  }

  // --- Preparing a frame ---

  function PrepareStep(s: Life, f: Frame): Life
  {
    if s.stage == Stopped || !f.ready || (s.made && f.frame <= s.frame) then s
    else if s.stage == Recording then Stop(s)
    else if !s.made then if f.ownerMade then FirstStep(s.(made := true, width := f.width, height := f.height), f) else s
    else if !f.sameQueue then Stop(s)
    else Begin(ResizeStep(s, f), f)
  }

  function FirstStep(s: Life, f: Frame): Life
  {
    if f.fenceMade then Begin(ResizeStep(s, f), f) else Stop(s)
  }

  function Begin(r: Result, f: Frame): Life
  {
    if !r.ok then r.life
    else if f.selection == Raised then r.life.(stage := Stopped, frame := f.frame)
    else if f.selection == Empty then r.life.(stage := Idle, frame := f.frame)
    else MakeFrom(Use(r.life, f), 0, f)
  }

  /** The targets count as used before the first command is recorded. */
  function Use(s: Life, f: Frame): Life
  {
    s.(stage := Idle, frame := f.frame, lastUse := f.present, log := s.log + [Used(f.present)])
  }

  function MakeFrom(s: Life, i: nat, f: Frame): Life
    decreases f.targets - i
  {
    if i >= f.targets || i >= |s.targets| then Record(s, f)
    else if !s.targets[i] && !f.creates(i) then Stop(s)
    else if !f.clears(i) then Stop(s.(targets := s.targets[i := true]))
    else MakeFrom(s.(targets := s.targets[i := true]), i + 1, f)
  }

  function Record(s: Life, f: Frame): Life
  {
    if f.character && f.creates(CHARACTER) && CHARACTER < |s.targets|
    then s.(targets := s.targets[CHARACTER := true], stage := Recording) else s.(stage := Recording)
  }

  // --- After Present ---

  function PresentStep(s: Life, present: nat, onThread: bool, signalled: bool): Life
  {
    if !s.made || !onThread || !s.pending || s.retireFence != 0 || present <= s.lastUse || s.stage != Idle then s
    else if !signalled then Stop(s.(signal := s.signal + 1))
    else s.(signal := s.signal + 1, retireFence := s.signal + 1, log := s.log + [Signalled(present, s.signal + 1)])
  }

  function Step(s: Life, c: Call): Life
  {
    match c
    case Prepare(f) => PrepareStep(s, f)
    case AfterPresent(present, onThread, signalled) => PresentStep(s, present, onThread, signalled)
    case Join(clean) => if s.stage == Recording then s.(stage := if clean then Joined else Stopped) else s
    case LiveFailure => Stop(s)
  }

  // --- The owner in place ---

  class Targets {
    var stage: Stage
    var made: bool
    var width: nat
    var height: nat
    var frame: nat
    var lastUse: nat
    var signal: nat
    var retireFence: nat
    var pending: bool
    const targets: array<bool>
    ghost var log: seq<Event>

    constructor ()
      ensures fresh(targets) && Valid() && Current() == UNMADE
    {
      targets := new bool[TARGETS](_ => false);
      stage, made, width, height, frame, lastUse, signal, retireFence, pending, log := Idle, false, 0, 0, 0, 0, 0, 0, false, [];
      new;
      assert targets[..] == UNMADE.targets;
    }

    ghost predicate Valid()
      reads this
    {
      targets.Length == TARGETS
    }

    ghost function Current(): Life
      reads this, targets
    {
      Life(stage, made, width, height, frame, lastUse, signal, retireFence, pending, targets[..], log)
    }

    method DestroyTargets(destroys: nat -> bool) returns (ok: bool)
      requires Valid()
      modifies this, targets
      ensures Valid() && Result(Current(), ok) == DestroyFrom(old(Current()), 0, destroys)
    {
      var i := 0;
      while i < TARGETS
        invariant 0 <= i <= TARGETS && Valid()
        invariant DestroyFrom(old(Current()), 0, destroys) == DestroyFrom(Current(), i, destroys)
      {
        if targets[i] {
          if !destroys(i) { stage := Stopped; return false; }
          targets[i] := false;
          log := log + [Destroyed(i)];
        }
        i := i + 1;
      }
      return true;
    }

    method Resize(f: Frame) returns (ok: bool)
      requires Valid()
      modifies this, targets
      ensures Valid() && Result(Current(), ok) == ResizeStep(old(Current()), f)
    {
      if width == f.width && height == f.height && !pending { return true; }
      if !f.onThread || stage == Recording { return false; }
      if !pending { pending, stage := true, Idle; }
      ok := RetireTargets(f);
    }

    method RetireTargets(f: Frame) returns (ok: bool)
      requires Valid()
      modifies this, targets
      ensures Valid() && Result(Current(), ok) == RetireStep(old(Current()), f)
    {
      if retireFence == 0 { return false; }
      if f.reading.Removed? { stage := Stopped; return false; }
      log := log + [Seen(f.reading.value)];
      if f.reading.value < retireFence { return false; }
      ok := DestroyTargets(f.destroys);
      if ok { width, height, retireFence, pending := f.width, f.height, 0, false; }
    }

    method PrepareFrame(f: Frame)
      requires Valid()
      modifies this, targets
      ensures Valid() && Current() == PrepareStep(old(Current()), f)
    {
      if stage == Stopped || !f.ready || (made && f.frame <= frame) { return; }
      if stage == Recording { stage := Stopped; return; }
      if !made {
        if !f.ownerMade { return; }
        made, width, height := true, f.width, f.height;
        if !f.fenceMade { stage := Stopped; return; }
      } else if !f.sameQueue {
        stage := Stopped;
        return;
      }
      var ok := Resize(f);
      if !ok { return; }
      stage, frame := Idle, f.frame;
      if f.selection == Raised { stage := Stopped; return; }
      if f.selection == Accepted { StartRecording(f); }
    }

    method StartRecording(f: Frame)
      requires Valid()
      modifies this, targets
      ensures Valid() && Current() == MakeFrom(Use(old(Current()), f), 0, f)
    {
      stage, frame, lastUse, log := Idle, f.frame, f.present, log + [Used(f.present)];
      ghost var before := Current();
      var i := 0;
      while i < f.targets && i < TARGETS
        invariant 0 <= i && Valid() && MakeFrom(before, 0, f) == MakeFrom(Current(), i, f)
      {
        if !targets[i] && !f.creates(i) { stage := Stopped; return; }
        targets[i] := true;
        if !f.clears(i) { stage := Stopped; return; }
        i := i + 1;
      }
      if f.character && f.creates(CHARACTER) { targets[CHARACTER] := true; }
      stage := Recording;
    }

    method PresentReturned(present: nat, onThread: bool, signalled: bool)
      requires Valid()
      modifies this
      ensures Valid() && Current() == PresentStep(old(Current()), present, onThread, signalled)
    {
      if !made || !onThread || !pending || retireFence != 0 || present <= lastUse || stage != Idle { return; }
      signal := signal + 1;
      if !signalled { stage := Stopped; return; }
      retireFence := signal;
      log := log + [Signalled(present, signal)];
    }
  }
}
