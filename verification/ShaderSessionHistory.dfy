/**
  Runs of a shader session: answers never change, shaders are stored once, and
  limits hold whatever the engine answers (src/rr_albedo_shader.h:550-627).
*/
module ShaderSessionHistory {
  import opened ShaderBytes
  import opened ShaderSession

  datatype Entry = Entry(before: State, call: Call, valid: bool, verdict: Verdict, after: State)

  ghost predicate Follows(run: seq<Entry>, n: nat, hash: seq<Byte> -> nat, exam: Exam)
    requires n < |run|
  {
    && run[n].before == (if n == 0 then EMPTY else run[n - 1].after)
    && Judged(run[n].after, run[n].valid, run[n].verdict) == Step(run[n].before, run[n].call, hash, exam)
  }

  ghost predicate IsRun(run: seq<Entry>, hash: seq<Byte> -> nat, exam: Exam)
  {
    forall n :: 0 <= n < |run| ==> Follows(run, n, hash, exam)
  }

  function StateAt(run: seq<Entry>, n: nat): State
    requires n <= |run|
  {
    if n == 0 then EMPTY else run[n - 1].after
  }

  // --- The invariant of every reachable session ---

  predicate Distinct(shaders: seq<Captured>)
  {
    forall i, k :: 0 <= i < k < |shaders| ==> shaders[i].bytes != shaders[k].bytes
  }

  /** A stored shader is of a legal size, and a contract it has is its own. */
  predicate ShaderOk(x: Captured, exam: Exam)
  {
    && MIN_BLOB <= |x.bytes| <= MAX_BLOB
    && (x.contract.Some? ==> exam(x.bytes, true) == x.contract)
  }

  /** A valid pair points to a stored shader that was accepted with its target count. */
  predicate PairOk(p: CachedPair, shaders: seq<Captured>)
  {
    p.valid ==>
      && p.verdict.selected < |shaders| && shaders[p.verdict.selected].contract.Some?
      && p.verdict.targetCount == shaders[p.verdict.selected].contract.value.targetCount
  }

  predicate StoreOk(shaders: seq<Captured>, exam: Exam)
  {
    Distinct(shaders) && forall i :: 0 <= i < |shaders| ==> ShaderOk(shaders[i], exam)
  }

  predicate PairsOk(pairs: seq<CachedPair>, shaders: seq<Captured>)
  {
    forall i :: 0 <= i < |pairs| ==> PairOk(pairs[i], shaders)
  }

  predicate WellFormed(s: State, exam: Exam)
  {
    && |s.shaders| <= |s.pairs| <= MAX_PAIRS && s.copied <= MAX_COPIED
    && StoreOk(s.shaders, exam) && PairsOk(s.pairs, s.shaders)
  }

  /** The store grows at the end; a stored shader only ever gains its contract. */
  predicate Grows(a: seq<Captured>, b: seq<Captured>)
  {
    && |a| <= |b| <= |a| + 1
    && forall i :: 0 <= i < |a| ==> b[i].bytes == a[i].bytes && (b[i].contract == a[i].contract || a[i].contract.None?)
  }

  lemma GrowthKeepsPairs(pairs: seq<CachedPair>, a: seq<Captured>, b: seq<Captured>)
    requires PairsOk(pairs, a) && Grows(a, b)
    ensures PairsOk(pairs, b)
  {
    forall i | 0 <= i < |pairs| ensures PairOk(pairs[i], b) {
      assert PairOk(pairs[i], a);
    }
  }

  lemma StoreKeeps(shaders: seq<Captured>, bytes: seq<Byte>, hash: nat, exam: Exam)
    requires StoreOk(shaders, exam) && MIN_BLOB <= |bytes| <= MAX_BLOB
    ensures var t := Store(shaders, Captured(bytes, hash, None));
            && StoreOk(t, exam) && Grows(shaders, t)
            && FindShader(shaders, bytes, 0) < |t| && t[FindShader(shaders, bytes, 0)].bytes == bytes
  {
  }

  lemma AcceptKeeps(s: State, selected: nat, exam: Exam)
    requires selected < |s.shaders| && StoreOk(s.shaders, exam)
    ensures var j := Accept(s, selected, exam(s.shaders[selected].bytes, true));
            && StoreOk(j.state.shaders, exam) && |j.state.shaders| == |s.shaders|
            && (forall i :: 0 <= i < |s.shaders| ==> j.state.shaders[i].bytes == s.shaders[i].bytes)
            && (forall i :: 0 <= i < |s.shaders| && s.shaders[i].contract.Some? ==> j.state.shaders[i].contract == s.shaders[i].contract)
  {
    assert ShaderOk(s.shaders[selected], exam);
  }

  /** What judging a pair does to the store. */
  predicate Judges(s: State, j: Judged, exam: Exam)
  {
    && StoreOk(j.state.shaders, exam) && Grows(s.shaders, j.state.shaders)
    && j.state.pairs == s.pairs && s.copied <= j.state.copied <= MAX_COPIED
    && (j.valid ==>
          && j.verdict.selected < |j.state.shaders| && j.state.shaders[j.verdict.selected].contract.Some?
          && j.verdict.targetCount == j.state.shaders[j.verdict.selected].contract.value.targetCount)
  }

  lemma PixelJudges(s: State, c: Call, hash: seq<Byte> -> nat, exam: Exam, vertex: seq<Byte>, albedo: seq<Byte>, pixel: Reading)
    requires StoreOk(s.shaders, exam) && s.copied <= pixel.copied <= MAX_COPIED
    requires pixel.bytes.Some? ==> MIN_BLOB <= |pixel.bytes.value| <= MAX_BLOB
    ensures Judges(s, AfterPixel(s, c, hash, exam, vertex, albedo, pixel), exam)
  {
    if pixel.bytes.Some? {
      var bytes := pixel.bytes.value;
      var i := FindShader(s.shaders, bytes, 0);
      StoreKeeps(s.shaders, bytes, hash(bytes), exam);
      var t := s.(copied := pixel.copied, shaders := Store(s.shaders, Captured(bytes, hash(bytes), None)));
      AcceptKeeps(t, i, exam);
    }
  }

  lemma JudgeJudges(s: State, c: Call, hash: seq<Byte> -> nat, exam: Exam)
    requires StoreOk(s.shaders, exam) && s.copied <= MAX_COPIED
    ensures Judges(s, Judge(s, c, hash, exam), exam)
  {
    var vertex := Read(s.copied, c.engine(0));
    if vertex.bytes.Some? {
      var albedo := Read(vertex.copied, c.engine(1));
      if albedo.bytes.Some? {
        PixelJudges(s, c, hash, exam, vertex.bytes.value, albedo.bytes.value, Read(albedo.copied, c.engine(2)));
      }
    }
  }

  /** What one call does: the memo is extended at the end, the store grows. */
  predicate Extends(s: State, t: State)
  {
    && |s.pairs| <= |t.pairs| && t.pairs[..|s.pairs|] == s.pairs && s.copied <= t.copied
    && |s.shaders| <= |t.shaders| && forall i :: 0 <= i < |s.shaders| ==> t.shaders[i].bytes == s.shaders[i].bytes
  }

  lemma RememberKeeps(s: State, j: Judged, original: nat, albedo: nat, exam: Exam)
    requires WellFormed(s, exam) && |s.pairs| < MAX_PAIRS && Judges(s, j, exam)
    ensures WellFormed(Remember(j, original, albedo).state, exam) && Extends(s, Remember(j, original, albedo).state)
  {
    GrowthKeepsPairs(s.pairs, s.shaders, j.state.shaders);
  }

  lemma StepKeeps(s: State, c: Call, hash: seq<Byte> -> nat, exam: Exam)
    requires WellFormed(s, exam)
    ensures WellFormed(Step(s, c, hash, exam).state, exam) && Extends(s, Step(s, c, hash, exam).state)
  {
    if c.getter && Lookup(s.pairs, c.original, c.albedo, 0) == |s.pairs| && |s.pairs| < MAX_PAIRS {
      JudgeJudges(s, c, hash, exam);
      RememberKeeps(s, Judge(s, c, hash, exam), c.original, c.albedo, exam);
    }
  }

  lemma {:induction false} AlwaysWellFormed(run: seq<Entry>, n: nat, hash: seq<Byte> -> nat, exam: Exam)
    requires IsRun(run, hash, exam) && n <= |run|
    ensures WellFormed(StateAt(run, n), exam)
  {
    if n > 0 {
      AlwaysWellFormed(run, n - 1, hash, exam);
      assert Follows(run, n - 1, hash, exam);
      StepKeeps(run[n - 1].before, run[n - 1].call, hash, exam);
    }
  }

  lemma {:induction false} OnlyExtends(run: seq<Entry>, m: nat, n: nat, hash: seq<Byte> -> nat, exam: Exam)
    requires IsRun(run, hash, exam) && m <= n <= |run|
    ensures Extends(StateAt(run, m), StateAt(run, n))
  {
    if m < n {
      OnlyExtends(run, m, n - 1, hash, exam);
      AlwaysWellFormed(run, n - 1, hash, exam);
      assert Follows(run, n - 1, hash, exam);
      StepKeeps(run[n - 1].before, run[n - 1].call, hash, exam);
      ExtendsTransitive(StateAt(run, m), StateAt(run, n - 1), StateAt(run, n));
    }
  }

  lemma ExtendsTransitive(s: State, t: State, u: State)
    requires Extends(s, t) && Extends(t, u)
    ensures Extends(s, u)
  {
    assert u.pairs[..|s.pairs|] == u.pairs[..|t.pairs|][..|s.pairs|];
  }

  lemma {:induction false} LookupPrefix(pairs: seq<CachedPair>, more: seq<CachedPair>, original: nat, albedo: nat, i: nat)
    requires |pairs| <= |more| && more[..|pairs|] == pairs && i <= |pairs|
    requires Lookup(pairs, original, albedo, i) < |pairs|
    ensures Lookup(more, original, albedo, i) == Lookup(pairs, original, albedo, i)
    decreases |pairs| - i
  {
    if i < |pairs| {
      assert more[i] == more[..|pairs|][i] == pairs[i];
      if !(pairs[i].original == original && pairs[i].albedo == albedo) { LookupPrefix(pairs, more, original, albedo, i + 1); }
    }
  }

  /** A pair that was judged once gets the same answer ever after, whatever the engine says, and nothing changes. */
  lemma AnswersStand(run: seq<Entry>, m: nat, n: nat, hash: seq<Byte> -> nat, exam: Exam, c: Call)
    requires IsRun(run, hash, exam) && m < n <= |run| && c.getter && run[m].call.getter
    requires c.original == run[m].call.original && c.albedo == run[m].call.albedo
    requires Lookup(run[m].after.pairs, c.original, c.albedo, 0) < |run[m].after.pairs|
    ensures Step(StateAt(run, n), c, hash, exam) == Judged(StateAt(run, n), run[m].valid, run[m].verdict)
  {
    var s, t := StateAt(run, m + 1), StateAt(run, n);
    OnlyExtends(run, m + 1, n, hash, exam);
    LookupPrefix(s.pairs, t.pairs, c.original, c.albedo, 0);
    var i := Lookup(s.pairs, c.original, c.albedo, 0);
    assert t.pairs[i] == t.pairs[..|s.pairs|][i] == s.pairs[i];
    JustAnswered(run, m, hash, exam);
  }

  /** The memo holds the answer just given. */
  lemma JustAnswered(run: seq<Entry>, m: nat, hash: seq<Byte> -> nat, exam: Exam)
    requires IsRun(run, hash, exam) && m < |run| && run[m].call.getter
    requires var c := run[m].call; Lookup(run[m].after.pairs, c.original, c.albedo, 0) < |run[m].after.pairs|
    ensures var c := run[m].call;
            var p := run[m].after.pairs[Lookup(run[m].after.pairs, c.original, c.albedo, 0)];
            p.valid == run[m].valid && p.verdict == run[m].verdict
  {
    assert Follows(run, m, hash, exam);
    var s, c, t := run[m].before, run[m].call, run[m].after;
    AlwaysWellFormed(run, m, hash, exam);
    if Lookup(s.pairs, c.original, c.albedo, 0) == |s.pairs| && |s.pairs| < MAX_PAIRS {
      JudgeJudges(s, c, hash, exam);
      LookupNew(s.pairs, t.pairs[|s.pairs|], c.original, c.albedo, 0);
    }
  }

  lemma {:induction false} LookupNew(pairs: seq<CachedPair>, p: CachedPair, original: nat, albedo: nat, i: nat)
    requires i <= |pairs| && Lookup(pairs, original, albedo, i) == |pairs| && p.original == original && p.albedo == albedo
    ensures Lookup(pairs + [p], original, albedo, i) == |pairs|
    decreases |pairs| - i
  {
    if i < |pairs| { LookupNew(pairs, p, original, albedo, i + 1); }
  }

  /** The pair is in the memo. */
  predicate Known(pairs: seq<CachedPair>, original: nat, albedo: nat)
  {
    exists i :: 0 <= i < |pairs| && pairs[i].original == original && pairs[i].albedo == albedo
  }

  lemma LookupKnown(pairs: seq<CachedPair>, original: nat, albedo: nat)
    ensures Known(pairs, original, albedo) <==> Lookup(pairs, original, albedo, 0) < |pairs|
  {
  }

  /** A call that finds its pair, or has room for it, leaves it in the memo, whatever its reads came to. */
  lemma Remembers(s: State, c: Call, hash: seq<Byte> -> nat, exam: Exam)
    requires c.getter && (Known(s.pairs, c.original, c.albedo) || (|s.pairs| < 128 && c.pairRoom))
    ensures Known(Step(s, c, hash, exam).state.pairs, c.original, c.albedo)
  {
    LookupKnown(s.pairs, c.original, c.albedo);
    if !Known(s.pairs, c.original, c.albedo) {
      JudgeIgnoresMemo(s, s.pairs, c, hash, exam);
      var pairs := Step(s, c, hash, exam).state.pairs;
      assert pairs[|pairs| - 1].original == c.original && pairs[|pairs| - 1].albedo == c.albedo;
    }
  }

  /**
    The first answer about a pair is given ever after, whatever the engine answered
    then or answers now, and a later call about it reads and charges nothing.
  */
  lemma FirstAnswerStands(run: seq<Entry>, m: nat, n: nat, hash: seq<Byte> -> nat, exam: Exam, c: Call)
    requires IsRun(run, hash, exam) && m < n <= |run| && c.getter && run[m].call.getter
    requires c.original == run[m].call.original && c.albedo == run[m].call.albedo
    requires Known(run[m].before.pairs, c.original, c.albedo) || (|run[m].before.pairs| < 128 && run[m].call.pairRoom)
    ensures Step(StateAt(run, n), c, hash, exam) == Judged(StateAt(run, n), run[m].valid, run[m].verdict)
  {
    assert Follows(run, m, hash, exam);
    Remembers(run[m].before, run[m].call, hash, exam);
    LookupKnown(run[m].after.pairs, c.original, c.albedo);
    AnswersStand(run, m, n, hash, exam, c);
  }

  /** Without a getter, or for a new pair when 128 are known or there is no memory for it, nothing is read or kept. */
  lemma RefusedUnread(s: State, c: Call, hash: seq<Byte> -> nat, exam: Exam)
    requires !c.getter || (!Known(s.pairs, c.original, c.albedo) && (|s.pairs| >= 128 || !c.pairRoom))
    ensures Step(s, c, hash, exam) == Judged(s, false, Verdict(0, 0))
  {
    LookupKnown(s.pairs, c.original, c.albedo);
  }

  /** What a read adds to the bytes copied so far. */
  function Charge(copied: nat, f: Fetch): nat
  {
    match f
    case NoDescriptor => 0
    case Untrusted(n) => if 32 <= n <= 262144 && copied + n <= 16777216 then n else 0
    case Copied(bytes) => if 32 <= |bytes| <= 262144 && copied + |bytes| <= 16777216 then |bytes| else 0
  }

  /** The read gave bytes to go on with. */
  predicate Gives(copied: nat, f: Fetch) { f.Copied? && Charge(copied, f) > 0 }

  /** A new pair is charged for each read in turn, up to the first that gives nothing. */
  lemma NewPairCharged(s: State, c: Call, hash: seq<Byte> -> nat, exam: Exam)
    requires c.getter && !Known(s.pairs, c.original, c.albedo) && |s.pairs| < 128 && c.pairRoom
    ensures var one := s.copied + Charge(s.copied, c.engine(0));
            var two := one + if Gives(s.copied, c.engine(0)) then Charge(one, c.engine(1)) else 0;
            var three := two + if Gives(s.copied, c.engine(0)) && Gives(one, c.engine(1)) then Charge(two, c.engine(2)) else 0;
            Step(s, c, hash, exam).state.copied == three
  {
    LookupKnown(s.pairs, c.original, c.albedo);
  }

  /** A pixel shader that could be read is stored and named in the answer, whether or not the pair turns out valid. */
  lemma PixelKept(s: State, c: Call, hash: seq<Byte> -> nat, exam: Exam)
    requires c.getter && !Known(s.pairs, c.original, c.albedo) && |s.pairs| < 128 && c.pairRoom && StoreOk(s.shaders, exam)
    requires ReadsAll(s, c)
    ensures var j := Step(s, c, hash, exam);
            j.verdict.selected < |j.state.shaders| && j.state.shaders[j.verdict.selected].bytes == c.engine(2).bytes
  {
    LookupKnown(s.pairs, c.original, c.albedo);
    StoreKeeps(s.shaders, c.engine(2).bytes, hash(c.engine(2).bytes), exam);
  }

  /** Every valid answer names a stored shader that is accepted with that target count; there are at most 128. */
  lemma ValidMeansAccepted(run: seq<Entry>, n: nat, hash: seq<Byte> -> nat, exam: Exam)
    requires IsRun(run, hash, exam) && n < |run| && run[n].valid
    ensures var i := run[n].verdict.selected;
            var shaders := run[n].after.shaders;
            && i < |shaders| <= MAX_PAIRS && exam(shaders[i].bytes, true).Some?
            && exam(shaders[i].bytes, true).value.targetCount == run[n].verdict.targetCount
  {
    AlwaysWellFormed(run, n, hash, exam);
    AlwaysWellFormed(run, n + 1, hash, exam);
    assert Follows(run, n, hash, exam);
    var s, c := run[n].before, run[n].call;
    var k := Lookup(s.pairs, c.original, c.albedo, 0);
    if k < |s.pairs| {
      assert PairOk(s.pairs[k], s.shaders);
    } else {
      JudgeJudges(s, c, hash, exam);
    }
    assert ShaderOk(run[n].after.shaders[run[n].verdict.selected], exam);
  }

  predicate Readable(f: Fetch) { f.Copied? && 32 <= |f.bytes| <= 262144 }

  /** The three blobs can be read within the budget, and there is memory for the last one. */
  predicate ReadsAll(s: State, c: Call)
  {
    var v, w, p := c.engine(0), c.engine(1), c.engine(2);
    && Readable(v) && Readable(w) && Readable(p) && s.copied + |v.bytes| + |w.bytes| + |p.bytes| <= 16777216
    && (c.shaderRoom || exists i :: 0 <= i < |s.shaders| && s.shaders[i].bytes == p.bytes)
  }

  /** The vertex shaders agree, and both stages are accepted. */
  predicate Agrees(c: Call, exam: Exam)
    requires c.engine(0).Copied? && c.engine(1).Copied? && c.engine(2).Copied?
  {
    c.engine(0).bytes == c.engine(1).bytes && exam(c.engine(0).bytes, false).Some? && exam(c.engine(2).bytes, true).Some?
  }

  lemma JudgedValid(s: State, c: Call, hash: seq<Byte> -> nat, exam: Exam)
    requires StoreOk(s.shaders, exam) && s.copied <= MAX_COPIED
    ensures var j := Judge(s, c, hash, exam);
            && (j.valid <==> ReadsAll(s, c) && Agrees(c, exam))
            && (j.valid ==> j.verdict.targetCount == exam(c.engine(2).bytes, true).value.targetCount)
  {
    var vertex := Read(s.copied, c.engine(0));
    if vertex.bytes.Some? {
      var albedo := Read(vertex.copied, c.engine(1));
      if albedo.bytes.Some? {
        var pixel := Read(albedo.copied, c.engine(2));
        if pixel.bytes.Some? { StoreKeeps(s.shaders, pixel.bytes.value, hash(pixel.bytes.value), exam); }
      }
    }
  }

  /** Exactly when a call about a new pair answers valid, and with which target count. */
  lemma NewPairValidIff(s: State, c: Call, hash: seq<Byte> -> nat, exam: Exam)
    requires StoreOk(s.shaders, exam) && s.copied <= 16777216 && !Known(s.pairs, c.original, c.albedo)
    ensures var j := Step(s, c, hash, exam);
            && (j.valid <==> c.getter && |s.pairs| < 128 && c.pairRoom && ReadsAll(s, c) && Agrees(c, exam))
            && (j.valid ==> j.verdict.targetCount == exam(c.engine(2).bytes, true).value.targetCount)
  {
    LookupKnown(s.pairs, c.original, c.albedo);
    JudgedValid(s, c, hash, exam);
  }
}
