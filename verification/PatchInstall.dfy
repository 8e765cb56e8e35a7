/**
  All-or-rollback installation of code patches (src/probe.cpp:964-974 and
  1336-1371, src/rr_albedo_hooks.h:57-120, src/rr_evaluation_entry.h:170-188).

  The fixed patch tables are generalised to any number of patches.  What the
  operating system answers to each protection call is a parameter, so the
  contracts hold whichever of them fail.  A site is one cell of an array: a
  pointer slot, or the five bytes of a call instruction.
*/
module PatchInstall {

  datatype Patch<T> = Patch(site: nat, original: T, hook: T)

  /** Every patch has a site of its own. */
  predicate Distinct<T>(patches: seq<Patch<T>>, size: nat)
  {
    && (forall i :: 0 <= i < |patches| ==> patches[i].site < size)
    && (forall i, j :: 0 <= i < j < |patches| ==> patches[i].site != patches[j].site)
  }

  // The answers to one attempt to write a site: may it be written, and did the
  // flush and the restored protection succeed afterwards.
  datatype Answer = Answer(writable: bool, healthy: bool)

  predicate IsSite<T>(patches: seq<Patch<T>>, n: nat, x: nat)
    requires n <= |patches|
  {
    exists i :: 0 <= i < n && patches[i].site == x
  }

  /** Cells that belong to none of the first `n` patches. */
  twostate predicate OthersUntouched<T>(memory: array<T>, patches: seq<Patch<T>>, n: nat)
    requires n <= |patches|
    reads memory
  {
    forall x :: 0 <= x < memory.Length && !IsSite(patches, n, x) ==> memory[x] == old(memory[x])
  }

  /** The first `n` sites hold their replacements, which they got from their originals. */
  twostate predicate Applied<T>(memory: array<T>, patches: seq<Patch<T>>, n: nat)
    requires n <= |patches| && Distinct(patches, memory.Length)
    reads memory
  {
    && (forall i :: 0 <= i < n ==> old(memory[patches[i].site]) == patches[i].original)
    && (forall i :: 0 <= i < n ==> memory[patches[i].site] == patches[i].hook)
  }

  /** The patch goes in: its site may be written and held what is expected. */
  twostate predicate Works<T>(memory: array<T>, p: Patch<T>, a: Answer)
    requires p.site < memory.Length
    reads memory
  {
    a.writable && old(memory[p.site]) == p.original
  }

  twostate predicate AllWork<T>(memory: array<T>, patches: seq<Patch<T>>, answers: seq<Answer>)
    requires |answers| == |patches| && Distinct(patches, memory.Length)
    reads memory
  {
    forall i :: 0 <= i < |patches| ==> Works(memory, patches[i], answers[i])
  }

  /** `n` patches go in and the next one, if any, does not. */
  twostate predicate StopsAt<T>(memory: array<T>, patches: seq<Patch<T>>, answers: seq<Answer>, n: nat)
    requires n <= |patches| == |answers| && Distinct(patches, memory.Length)
    reads memory
  {
    && (forall i :: 0 <= i < n ==> Works(memory, patches[i], answers[i]))
    && (n < |patches| ==> !Works(memory, patches[n], answers[n]))
  }

  /** The first `n` sites are as before, except those whose own rollback could not write. */
  twostate predicate RolledBack<T>(memory: array<T>, patches: seq<Patch<T>>, n: nat, answers: seq<Answer>)
    requires n <= |patches| <= |answers| && Distinct(patches, memory.Length)
    reads memory
  {
    forall i :: 0 <= i < n ==>
      memory[patches[i].site] == if answers[i].writable then old(memory[patches[i].site]) else patches[i].hook
  }

  /** Compare and swap under lifted protection; a failure to restore the protection is only logged. */
  method Exchange<T(==)>(memory: array<T>, p: Patch<T>, install: bool, a: Answer) returns (ok: bool)
    requires p.site < memory.Length
    modifies memory
    ensures ok <==> a.writable && old(memory[p.site]) == (if install then p.original else p.hook)
    ensures memory[p.site] == if ok then (if install then p.hook else p.original) else old(memory[p.site])
    ensures forall x :: 0 <= x < memory.Length && x != p.site ==> memory[x] == old(memory[x])
  {
    if !a.writable { return false; }
    var expected, next := if install then p.original else p.hook, if install then p.hook else p.original;
    ok := memory[p.site] == expected;
    if ok { memory[p.site] := next; }
  }

  /** The installation loop: stops at the first exchange that fails. */
  method InstallAll<T(==)>(memory: array<T>, patches: seq<Patch<T>>, answers: seq<Answer>) returns (applied: nat)
    requires Distinct(patches, memory.Length) && |answers| == |patches|
    modifies memory
    ensures applied <= |patches| && Applied(memory, patches, applied) && OthersUntouched(memory, patches, applied)
    ensures StopsAt(memory, patches, answers, applied)
  {
    applied := 0;
    while applied < |patches|
      invariant applied <= |patches| && Applied(memory, patches, applied) && OthersUntouched(memory, patches, applied)
      invariant forall i :: 0 <= i < applied ==> Works(memory, patches[i], answers[i])
    {
      assert !IsSite(patches, applied, patches[applied].site);
      ghost var before := memory[..];
      var ok := Exchange(memory, patches[applied], true, answers[applied]);
      if !ok {
        assert memory[..] == before;
        break;
      }
      forall x | 0 <= x < memory.Length && !IsSite(patches, applied + 1, x) ensures memory[x] == old(memory[x]) {
        assert !IsSite(patches, applied, x) && patches[applied].site != x;
      }
      applied := applied + 1;
    }
  }

  /** The rollback loop, last applied first. */
  method RollBack<T(==)>(memory: array<T>, patches: seq<Patch<T>>, applied: nat, answers: seq<Answer>)
    requires applied <= |patches| == |answers| && Distinct(patches, memory.Length)
    requires forall i :: 0 <= i < applied ==> memory[patches[i].site] == patches[i].hook
    modifies memory
    ensures forall i :: 0 <= i < applied ==>
              memory[patches[i].site] == if answers[i].writable then patches[i].original else patches[i].hook
    ensures OthersUntouched(memory, patches, applied)
  {
    var n: nat := applied;
    while n > 0
      invariant n <= applied
      invariant forall i :: 0 <= i < n ==> memory[patches[i].site] == patches[i].hook
      invariant forall i :: n <= i < applied ==>
                  memory[patches[i].site] == if answers[i].writable then patches[i].original else patches[i].hook
      invariant OthersUntouched(memory, patches, applied)
    {
      n := n - 1;
      var _ := Exchange(memory, patches[n], false, answers[n]);
    }
  }

  /** All pointer patches, or none: the first phase of start-up. */
  method InstallOrRollBack<T(==)>(memory: array<T>, patches: seq<Patch<T>>, install: seq<Answer>, undo: seq<Answer>)
    returns (applied: nat)
    requires Distinct(patches, memory.Length) && |install| == |undo| == |patches|
    modifies memory
    ensures applied <= |patches| && OthersUntouched(memory, patches, applied)
    ensures StopsAt(memory, patches, install, applied)
    ensures applied == |patches| ==> Applied(memory, patches, applied)
    ensures applied < |patches| ==> RolledBack(memory, patches, applied, undo)
  {
    applied := InstallAll(memory, patches, install);
    if applied != |patches| {
      RollBack(memory, patches, applied, undo);
    }
  }

  // --- The two call sites of start-up ---

  // The answers to one rollback of a call site: may the site be written, and is
  // the relay really freed.
  datatype Undo = Undo(writable: bool, freed: bool)

  /** A call that is redirected through a relay of its own (src/streamline_bridge.h:2279-2314, 2404-2440). */
  class CallHook<U(==)> {
    const original: U
    const hook: U
    /** The bytes at the call site. */
    var site: U
    /** There is a relay to hand out. */
    var relay: bool
    /** The relay's memory has not been freed. */
    var live: bool

    constructor (original: U, hook: U)
      ensures this.original == original && this.hook == hook && Ready()
    {
      this.original, this.hook, site, relay, live := original, hook, original, true, true;
    }

    /** Prepared and not yet installed. */
    predicate Ready()
      reads this
    {
      site == original && relay && live
    }

    /** The site still jumps to a relay whose memory is gone. */
    predicate Orphaned()
      reads this
    {
      site == hook && !live
    }

    method Install(a: Answer) returns (ok: bool)
      modifies this`site
      ensures ok == (relay && a.writable) && site == if ok then hook else old(site)
    {
      if !relay || !a.writable { return false; }
      site := hook;
      return true;
    }

    /** Rewrites the site and gives the relay back, whether or not the site could be written. */
    method RollBackCall(u: Undo)
      modifies this`site, this`relay, this`live
      ensures site == (if u.writable then original else old(site)) && !relay
      ensures live == (old(live) && !(old(relay) && u.freed))
    {
      if u.writable { site := original; }
      if relay {
        if u.freed { live := false; }
        relay := false;
      }
    }
  }

  /**
    The installation part of start-up: all pointer patches, then the two call
    sites, and on any failure everything is taken back.  A failure leaves a call
    to a relay that is gone exactly when the first call was hooked, the second
    was not, the first could not be rewritten and its relay was freed all the same.
  */
  method Configure<T(==), U(==)>(
    memory: array<T>, patches: seq<Patch<T>>, ngx: CallHook<U>, queue: CallHook<U>,
    install: seq<Answer>, undo: seq<Answer>, ngxInstall: Answer, ngxUndo: Undo, queueInstall: Answer, queueUndo: Undo)
    returns (ok: bool, ghost applied: nat)
    requires Distinct(patches, memory.Length) && |install| == |undo| == |patches|
    requires ngx != queue && ngx.Ready() && queue.Ready() && ngx.hook != ngx.original && queue.hook != queue.original
    modifies memory, ngx, queue
    ensures applied <= |patches| && OthersUntouched(memory, patches, applied) && StopsAt(memory, patches, install, applied)
    ensures ok <==> AllWork(memory, patches, install) && ngxInstall.writable && queueInstall.writable
    ensures ok ==> applied == |patches| && Applied(memory, patches, |patches|)
    ensures ok ==> ngx.site == ngx.hook && queue.site == queue.hook && ngx.live && queue.live
    ensures !ok ==> RolledBack(memory, patches, applied, undo) && queue.site == queue.original
    ensures !ok ==> ngx.site == if applied == |patches| && ngxInstall.writable && !ngxUndo.writable then ngx.hook else ngx.original
    ensures !ok ==> !ngx.relay && !queue.relay && ngx.live == !ngxUndo.freed && queue.live == !queueUndo.freed
    ensures !queue.Orphaned()
    ensures ngx.Orphaned() <==> AllWork(memory, patches, install) && ngxInstall.writable && !queueInstall.writable &&
                                !ngxUndo.writable && ngxUndo.freed
  {
    var installed := InstallOrRollBack(memory, patches, install, undo);
    applied := installed;
    if installed != |patches| {
      queue.RollBackCall(queueUndo);
      ngx.RollBackCall(ngxUndo);
      ok := false;
      return;
    }
    ok := ngx.Install(ngxInstall);
    if !ok {
      RollBack(memory, patches, installed, undo);
      queue.RollBackCall(queueUndo);
      ngx.RollBackCall(ngxUndo);
      return;
    }
    ok := queue.Install(queueInstall);
    if !ok {
      queue.RollBackCall(queueUndo);
      ngx.RollBackCall(ngxUndo);
      RollBack(memory, patches, installed, undo);
      return;
    }
  }

  /** One such failure: nothing to patch, the second call not writable, nor the first one any more. */
  method RelayFreedTooEarly<T(==), U(==)>(memory: array<T>, ngx: CallHook<U>, queue: CallHook<U>, queueUndo: Undo)
    requires ngx != queue && ngx.Ready() && queue.Ready() && ngx.hook != ngx.original && queue.hook != queue.original
    modifies memory, ngx, queue
    ensures ngx.Orphaned()
  {
    var ok, _ := Configure(
      memory, [], ngx, queue, [], [], Answer(true, true), Undo(false, true), Answer(false, false), queueUndo);
  }

  // --- Call patches, whose writes may be unhealthy ---

  /** Checks the five bytes, writes them, and reports whether flush and protection went well. */
  method ExchangeCall<T(==)>(code: array<T>, p: Patch<T>, install: bool, a: Answer) returns (done: bool, healthy: bool)
    requires p.site < code.Length
    modifies code
    ensures done <==> a.writable && old(code[p.site]) == (if install then p.original else p.hook)
    ensures done ==> healthy == a.healthy
    ensures code[p.site] == if done then (if install then p.hook else p.original) else old(code[p.site])
    ensures forall x :: 0 <= x < code.Length && x != p.site ==> code[x] == old(code[x])
  {
    var expected, next := if install then p.original else p.hook, if install then p.hook else p.original;
    if code[p.site] != expected { return false, false; }
    if !a.writable { return false, false; }
    code[p.site] := next;
    return true, a.healthy;
  }

  /** All calls go in, by healthy writes. */
  twostate predicate AllHealthy<T>(code: array<T>, calls: seq<Patch<T>>, answers: seq<Answer>)
    requires |answers| == |calls| && Distinct(calls, code.Length)
    reads code
  {
    forall i :: 0 <= i < |calls| ==> Works(code, calls[i], answers[i]) && answers[i].healthy
  }

  /** `n` calls are written: the last one may be unhealthy, and then or when the next does not go in there are no more. */
  twostate predicate CallsStopAt<T>(code: array<T>, calls: seq<Patch<T>>, answers: seq<Answer>, n: nat)
    requires n <= |calls| == |answers| && Distinct(calls, code.Length)
    reads code
  {
    && (forall i :: 0 <= i < n ==> Works(code, calls[i], answers[i]))
    && (forall i :: 0 <= i < n - 1 ==> answers[i].healthy)
    && (n < |calls| ==> (n > 0 && !answers[n - 1].healthy) || !Works(code, calls[n], answers[n]))
  }

  /** There is only one place to stop. */
  twostate lemma CallsStopOnce<T>(code: array<T>, calls: seq<Patch<T>>, answers: seq<Answer>, m: nat, n: nat)
    requires m <= |calls| == |answers| && n <= |calls| && Distinct(calls, code.Length)
    requires CallsStopAt(code, calls, answers, m) && CallsStopAt(code, calls, answers, n)
    ensures m == n
  {
  }

  /** The call loop: an unhealthy write counts as applied, and ends the loop. */
  method InstallCalls<T(==)>(code: array<T>, calls: seq<Patch<T>>, answers: seq<Answer>)
    returns (applied: nat, healthy: bool)
    requires Distinct(calls, code.Length) && |answers| == |calls|
    modifies code
    ensures applied <= |calls| && Applied(code, calls, applied) && OthersUntouched(code, calls, applied)
    ensures CallsStopAt(code, calls, answers, applied)
    ensures healthy <==> AllHealthy(code, calls, answers)
    ensures healthy ==> applied == |calls|
  {
    applied, healthy := 0, true;
    while applied < |calls|
      invariant applied <= |calls| && Applied(code, calls, applied) && OthersUntouched(code, calls, applied)
      invariant healthy && forall i :: 0 <= i < applied ==> Works(code, calls[i], answers[i]) && answers[i].healthy
    {
      assert !IsSite(calls, applied, calls[applied].site);
      ghost var before := code[..];
      var done, wasHealthy := ExchangeCall(code, calls[applied], true, answers[applied]);
      if !done {
        assert code[..] == before;
        healthy := false;
        break;
      }
      forall x | 0 <= x < code.Length && !IsSite(calls, applied + 1, x) ensures code[x] == old(code[x]) {
        assert !IsSite(calls, applied, x) && calls[applied].site != x;
      }
      applied := applied + 1;
      if !wasHealthy {
        healthy := false;
        break;
      }
    }
  }

  /** The call rollback; `clean` tells whether every site was taken back by a healthy write. */
  method RollBackCalls<T(==)>(code: array<T>, calls: seq<Patch<T>>, applied: nat, answers: seq<Answer>)
    returns (clean: bool)
    requires applied <= |calls| == |answers| && Distinct(calls, code.Length)
    requires forall i :: 0 <= i < applied ==> code[calls[i].site] == calls[i].hook
    modifies code
    ensures forall i :: 0 <= i < applied ==>
              code[calls[i].site] == if answers[i].writable then calls[i].original else calls[i].hook
    ensures OthersUntouched(code, calls, applied)
    ensures clean <==> forall i :: 0 <= i < applied ==> answers[i].writable && answers[i].healthy
  {
    var n: nat := applied;
    clean := true;
    while n > 0
      invariant n <= applied
      invariant forall i :: 0 <= i < n ==> code[calls[i].site] == calls[i].hook
      invariant forall i :: n <= i < applied ==>
                  code[calls[i].site] == if answers[i].writable then calls[i].original else calls[i].hook
      invariant OthersUntouched(code, calls, applied)
      invariant clean <==> forall i :: n <= i < applied ==> answers[i].writable && answers[i].healthy
    {
      n := n - 1;
      var done, healthy := ExchangeCall(code, calls[n], false, answers[n]);
      if !done || !healthy { clean := false; }
    }
  }

  /** One phase: the evaluation-entry installer; `applied` is the one place where its loop can stop. */
  method InstallEvaluationEntry<T(==)>(code: array<T>, calls: seq<Patch<T>>, install: seq<Answer>, undo: seq<Answer>)
    returns (ok: bool, rollback: bool, ghost applied: nat)
    requires Distinct(calls, code.Length) && |install| == |undo| == |calls|
    modifies code
    ensures applied <= |calls| && CallsStopAt(code, calls, install, applied) && OthersUntouched(code, calls, applied)
    ensures ok <==> AllHealthy(code, calls, install)
    ensures ok ==> applied == |calls| && Applied(code, calls, |calls|)
    ensures !ok ==> RolledBack(code, calls, applied, undo)
    ensures !ok ==> (rollback <==> forall i :: 0 <= i < applied ==> undo[i].writable && undo[i].healthy)
    ensures !ok && rollback ==> code[..] == old(code[..])
  {
    var written, healthy := InstallCalls(code, calls, install);
    applied, rollback := written, true;
    if !healthy || written != |calls| {
      rollback := RollBackCalls(code, calls, written, undo);
      assert RolledBack(code, calls, applied, undo);
      if rollback {
        forall x | 0 <= x < code.Length ensures code[x] == old(code[x]) {
          if IsSite(calls, applied, x) {
            var i :| 0 <= i < applied && calls[i].site == x;
            assert code[calls[i].site] == old(code[calls[i].site]);
          }
        }
      }
      ok := false;
      return;
    }
    ok := true;
  }

  /** Two phases: the albedo hooks write their calls, then their slots, and undo in reverse. */
  method InstallHooks<T(==), U(==)>(
    code: array<T>, calls: seq<Patch<T>>, slots: array<U>, pointers: seq<Patch<U>>,
    callInstall: seq<Answer>, callUndo: seq<Answer>, slotInstall: seq<Answer>, slotUndo: seq<Answer>)
    returns (ok: bool, ghost callsApplied: nat, ghost slotsApplied: nat)
    requires code as object != slots as object
    requires Distinct(calls, code.Length) && |callInstall| == |callUndo| == |calls|
    requires Distinct(pointers, slots.Length) && |slotInstall| == |slotUndo| == |pointers|
    modifies code, slots
    ensures callsApplied <= |calls| && CallsStopAt(code, calls, callInstall, callsApplied)
    ensures slotsApplied <= |pointers|
    ensures if AllHealthy(code, calls, callInstall) then StopsAt(slots, pointers, slotInstall, slotsApplied) else slotsApplied == 0
    ensures OthersUntouched(code, calls, callsApplied) && OthersUntouched(slots, pointers, slotsApplied)
    ensures ok <==> AllHealthy(code, calls, callInstall) && AllWork(slots, pointers, slotInstall)
    ensures ok ==> callsApplied == |calls| && Applied(code, calls, |calls|)
    ensures ok ==> slotsApplied == |pointers| && Applied(slots, pointers, |pointers|)
    ensures !ok ==> RolledBack(code, calls, callsApplied, callUndo) && RolledBack(slots, pointers, slotsApplied, slotUndo)
  {
    var written, callsHealthy := InstallCalls(code, calls, callInstall);
    var exchanged := 0;
    if written == |calls| && callsHealthy {
      exchanged := InstallAll(slots, pointers, slotInstall);
    }
    callsApplied, slotsApplied := written, exchanged;
    if !callsHealthy || written != |calls| || exchanged != |pointers| {
      RollBack(slots, pointers, exchanged, slotUndo);
      var _ := RollBackCalls(code, calls, written, callUndo);
      ok := false;
      return;
    }
    ok := true;
  }

  /** Sites at or past the first failing patch are never written. */
  twostate lemma LaterSitesUntouched<T>(memory: array<T>, patches: seq<Patch<T>>, applied: nat, k: nat)
    requires Distinct(patches, memory.Length) && applied <= k < |patches|
    requires OthersUntouched(memory, patches, applied)
    ensures memory[patches[k].site] == old(memory[patches[k].site])
  {
    assert !IsSite(patches, applied, patches[k].site);
  }
}
