/**
  The chunk table of a shader blob (src/rr_albedo_shader.h:66-126).

  `IsContainer` says what an acceptable blob is, chunk by chunk and pair by
  pair; `ReadContainer` is the single pass over the table that decides it.
*/
module ShaderContainer {
  import opened ShaderBytes

  const MAX_BLOB := 256 * 1024

  // Four-character tags, first character in the low byte.
  const TAG_DXBC := 0x4342_5844
  const TAG_SHDR := 0x5244_4853
  const TAG_SHEX := 0x5845_4853
  const TAG_OSGN := 0x4E47_534F
  const TAG_OSG5 := 0x3547_534F
  const TAG_OSG1 := 0x3147_534F
  const TAG_RDEF := 0x4645_4452
  const TAG_ISGN := 0x4E47_5349
  const TAG_ISG1 := 0x3147_5349
  const TAG_STAT := 0x5441_5453
  const TAG_SDBG := 0x4742_4453
  const TAG_SPDB := 0x4244_5053
  const TAG_ILDN := 0x4E44_4C49

  datatype Role = Code | Output | Resources | Input | Ignored | Unknown

  // `offset` is where the payload starts, after the eight-byte chunk header.
  datatype Chunk = Chunk(tag: Word, offset: nat, size: nat)

  datatype Container = Container(code: Chunk, output: Chunk, resources: Chunk, major: nat, minor: nat, stage: nat)

  function RoleOf(tag: Word): Role
  {
    if tag == TAG_SHDR || tag == TAG_SHEX then Code
    else if tag == TAG_OSGN || tag == TAG_OSG5 || tag == TAG_OSG1 then Output
    else if tag == TAG_RDEF then Resources
    else if tag == TAG_ISGN || tag == TAG_ISG1 then Input
    else if tag == TAG_STAT || tag == TAG_SDBG ||
            tag == TAG_SPDB || tag == TAG_ILDN then Ignored
    else Unknown
  }

  predicate HeaderOk(data: seq<Byte>)
  {
    && 32 <= |data| <= MAX_BLOB
    && |data| % 4 == 0
    && WordAt(data, 0) == TAG_DXBC && WordAt(data, 20) == 1 && WordAt(data, 24) == |data|
    && 3 <= WordAt(data, 28) <= 32
    && Table(32, WordAt(data, 28), 4, |data|)
  }

  function ChunkCount(data: seq<Byte>): (n: nat)
    requires HeaderOk(data)
    ensures 3 <= n <= 32 && 32 + 4 * n <= |data|
  {
    TableFits(32, WordAt(data, 28), 4, |data|);
    WordAt(data, 28)
  }

  function Entry(data: seq<Byte>, i: nat): nat
    requires HeaderOk(data) && i < ChunkCount(data)
  {
    WordAt(data, 32 + 4 * i)
  }

  /** Chunk `i` lies behind the table and inside the blob. */
  predicate ChunkFits(data: seq<Byte>, i: nat)
    requires HeaderOk(data) && i < ChunkCount(data)
  {
    var offset := Entry(data, i);
    && offset % 4 == 0
    && offset >= 32 + 4 * ChunkCount(data)
    && Range(offset, 8, |data|)
    && Range(offset + 8, WordAt(data, offset + 4), |data|)
  }

  function ChunkAt(data: seq<Byte>, i: nat): Chunk
    requires HeaderOk(data) && i < ChunkCount(data) && ChunkFits(data, i)
  {
    var offset := Entry(data, i);
    Chunk(WordAt(data, offset), offset + 8, WordAt(data, offset + 4))
  }

  function RoleAt(data: seq<Byte>, i: nat): Role
    requires HeaderOk(data) && i < ChunkCount(data) && ChunkFits(data, i)
  {
    RoleOf(ChunkAt(data, i).tag)
  }

  predicate ChunkOk(data: seq<Byte>, i: nat)
    requires HeaderOk(data) && i < ChunkCount(data)
  {
    ChunkFits(data, i) && RoleAt(data, i) != Unknown
  }

  /** Two chunks share no byte, headers included. */
  predicate Apart(a: Chunk, b: Chunk)
  {
    a.offset + a.size <= b.offset - 8 || b.offset + b.size <= a.offset - 8
  }

  /** Two chunks of one blob do not overlap and do not play the same unique role. */
  predicate Compatible(a: Chunk, b: Chunk)
  {
    Apart(a, b) && (RoleOf(a.tag) == RoleOf(b.tag) ==> RoleOf(a.tag) == Ignored)
  }

  predicate PairOk(data: seq<Byte>, i: nat, j: nat)
    requires HeaderOk(data) && i < ChunkCount(data) && j < ChunkCount(data)
  {
    ChunkFits(data, i) && ChunkFits(data, j) && Compatible(ChunkAt(data, i), ChunkAt(data, j))
  }

  ghost predicate TableOk(data: seq<Byte>, n: nat)
    requires HeaderOk(data) && n <= ChunkCount(data)
  {
    && (forall i :: 0 <= i < n ==> ChunkOk(data, i))
    && (forall i, j :: 0 <= i < j < n ==> PairOk(data, i, j))
  }

  ghost predicate Holds(data: seq<Byte>, n: nat, role: Role, c: Chunk)
    requires HeaderOk(data) && n <= ChunkCount(data) && TableOk(data, n)
  {
    exists i :: 0 <= i < n && ChunkOk(data, i) && RoleAt(data, i) == role && ChunkAt(data, i) == c
  }

  predicate VersionOk(data: seq<Byte>, c: Container)
  {
    && c.code.offset + c.code.size <= |data|
    && c.code.size >= 12
    && c.code.size % 4 == 0
    && WordAt(data, c.code.offset + 4) == c.code.size / 4
    && (var version := WordAt(data, c.code.offset);
        && c.stage == version / 0x1_0000
        && c.major == version / 16 % 16
        && c.minor == version % 16
        && version / 256 % 256 == 0
        && ((c.major == 4 && c.minor <= 1) || (c.major == 5 && c.minor <= 1)))
  }

  /** The blob is an acceptable container and `c` describes it. */
  ghost predicate IsContainer(data: seq<Byte>, c: Container)
  {
    && HeaderOk(data)
    && TableOk(data, ChunkCount(data))
    && Holds(data, ChunkCount(data), Code, c.code)
    && Holds(data, ChunkCount(data), Output, c.output)
    && Holds(data, ChunkCount(data), Resources, c.resources)
    && VersionOk(data, c)
  }

  lemma DistinctRoles(data: seq<Byte>, i: nat, j: nat)
    requires HeaderOk(data) && TableOk(data, ChunkCount(data)) && i < ChunkCount(data) && j < ChunkCount(data)
    ensures ChunkOk(data, i) && ChunkOk(data, j)
    ensures i != j ==> Compatible(ChunkAt(data, i), ChunkAt(data, j))
  {
    assert ChunkOk(data, i) && ChunkOk(data, j);
    if i < j {
      assert PairOk(data, i, j);
    } else if j < i {
      assert PairOk(data, j, i);
    }
  }

  /** A blob has at most one reading. */
  lemma ContainerUnique(data: seq<Byte>, c: Container, d: Container)
    requires IsContainer(data, c) && IsContainer(data, d)
    ensures c == d
  {
    forall role, x, y | Holds(data, ChunkCount(data), role, x) && Holds(data, ChunkCount(data), role, y) && role != Ignored
      ensures x == y
    {
      var i :| 0 <= i < ChunkCount(data) && ChunkOk(data, i) && RoleAt(data, i) == role && ChunkAt(data, i) == x;
      var j :| 0 <= j < ChunkCount(data) && ChunkOk(data, j) && RoleAt(data, j) == role && ChunkAt(data, j) == y;
      DistinctRoles(data, i, j);
    }
  }

  /** Every chunk of an accepted container, header included, lies in the blob and behind the table, apart from the others. */
  lemma ChunksDisjoint(data: seq<Byte>, c: Container, i: nat, j: nat)
    requires IsContainer(data, c) && i < ChunkCount(data) && j < ChunkCount(data)
    ensures ChunkFits(data, i) && ChunkFits(data, j)
    ensures var a := ChunkAt(data, i);
            40 + 4 * ChunkCount(data) <= a.offset && a.offset + a.size <= |data|
    ensures i != j ==> Apart(ChunkAt(data, i), ChunkAt(data, j))
  {
    DistinctRoles(data, i, j);
  }

  // What the pass has collected for one unique role after `n` chunks.
  ghost predicate Collected(data: seq<Byte>, n: nat, role: Role, found: Option<Chunk>)
    requires HeaderOk(data) && n <= ChunkCount(data) && TableOk(data, n)
  {
    match found
    case None => forall i :: 0 <= i < n && ChunkOk(data, i) ==> RoleAt(data, i) != role
    case Some(c) => Holds(data, n, role, c)
  }

  /** A chunk in a role already taken is a duplicate; otherwise the role is collected one chunk further. */
  lemma CollectNext(data: seq<Byte>, n: nat, role: Role, found: Option<Chunk>)
    requires HeaderOk(data) && n < ChunkCount(data) && TableOk(data, n) && Collected(data, n, role, found)
    requires ChunkOk(data, n) && role != Ignored
    ensures RoleAt(data, n) == role && found.Some? ==> !TableOk(data, n + 1)
    ensures TableOk(data, n + 1) && RoleAt(data, n) == role ==>
              Collected(data, n + 1, role, Some(ChunkAt(data, n)))
    ensures TableOk(data, n + 1) && RoleAt(data, n) != role ==> Collected(data, n + 1, role, found)
  {
    if found.Some? {
      var i :| 0 <= i < n && ChunkOk(data, i) && RoleAt(data, i) == role && ChunkAt(data, i) == found.value;
      if TableOk(data, n + 1) {
        assert PairOk(data, i, n);
        assert Holds(data, n + 1, role, found.value);
      }
    }
  }

  /** The table of `n + 1` chunks is good when the first `n` are and the last clashes with none. */
  lemma TableNext(data: seq<Byte>, n: nat)
    requires HeaderOk(data) && n < ChunkCount(data) && TableOk(data, n) && ChunkOk(data, n)
    requires forall i :: 0 <= i < n ==> PairOk(data, i, n)
    ensures TableOk(data, n + 1)
  {
  }

  lemma TableShrinks(data: seq<Byte>, n: nat, m: nat)
    requires HeaderOk(data) && n <= m <= ChunkCount(data) && TableOk(data, m)
    ensures TableOk(data, n)
  {
  }

  /** The overlap scan against the spans read so far. */
  method Overlaps(spans: array<(nat, nat)>, n: nat) returns (hit: bool)
    requires n < spans.Length
    ensures hit <==> exists j :: 0 <= j < n && spans[n].0 < spans[j].1 && spans[j].0 < spans[n].1
  {
    var j := 0;
    hit := false;
    while j < n
      invariant j <= n
      invariant forall k :: 0 <= k < j ==> !(spans[n].0 < spans[k].1 && spans[k].0 < spans[n].1)
    {
      if spans[n].0 < spans[j].1 && spans[j].0 < spans[n].1 { return true; }
      j := j + 1;
    }
  }

  datatype Found = Found(code: Option<Chunk>, output: Option<Chunk>, resources: Option<Chunk>, input: Option<Chunk>)

  ghost predicate AllCollected(data: seq<Byte>, n: nat, f: Found)
    requires HeaderOk(data) && n <= ChunkCount(data) && TableOk(data, n)
  {
    && Collected(data, n, Code, f.code) && Collected(data, n, Output, f.output)
    && Collected(data, n, Resources, f.resources) && Collected(data, n, Input, f.input)
  }

  /** The dispatch on a chunk's tag: nothing when its role is taken or unknown. */
  function Accept(f: Found, c: Chunk): Option<Found>
  {
    match RoleOf(c.tag)
    case Code => if f.code.Some? then None else Some(f.(code := Some(c)))
    case Output => if f.output.Some? then None else Some(f.(output := Some(c)))
    case Resources => if f.resources.Some? then None else Some(f.(resources := Some(c)))
    case Input => if f.input.Some? then None else Some(f.(input := Some(c)))
    case Ignored => Some(f)
    case Unknown => None
  }

  lemma AcceptDecides(data: seq<Byte>, n: nat, f: Found)
    requires HeaderOk(data) && n < ChunkCount(data) && TableOk(data, n) && AllCollected(data, n, f)
    requires ChunkFits(data, n) && forall i :: 0 <= i < n && ChunkOk(data, i) ==> Apart(ChunkAt(data, i), ChunkAt(data, n))
    ensures Accept(f, ChunkAt(data, n)).Some? <==> TableOk(data, n + 1)
    ensures TableOk(data, n + 1) ==> AllCollected(data, n + 1, Accept(f, ChunkAt(data, n)).value)
  {
    if ChunkOk(data, n) {
      CollectNext(data, n, Code, f.code);
      CollectNext(data, n, Output, f.output);
      CollectNext(data, n, Resources, f.resources);
      CollectNext(data, n, Input, f.input);
      if Accept(f, ChunkAt(data, n)).Some? {
        forall i | 0 <= i < n ensures PairOk(data, i, n) {
          assert ChunkOk(data, i);
        }
        TableNext(data, n);
      }
    }
  }

  /** The spans recorded for the first `n` chunks. */
  ghost predicate SpansOf(data: seq<Byte>, n: nat, spans: seq<(nat, nat)>)
    requires HeaderOk(data) && n <= ChunkCount(data) && |spans| == 32
  {
    forall i :: 0 <= i < n && ChunkOk(data, i) ==>
      spans[i] == (ChunkAt(data, i).offset - 8, ChunkAt(data, i).offset + ChunkAt(data, i).size)
  }

  /** The bounds of one table entry. */
  method LocateChunk(data: seq<Byte>, n: nat) returns (r: Option<Chunk>)
    requires HeaderOk(data) && n < ChunkCount(data)
    ensures r.Some? <==> ChunkFits(data, n)
    ensures r.Some? ==> r.value == ChunkAt(data, n)
  {
    var offset := WordAt(data, 32 + n * 4);
    if offset % 4 != 0 || offset < 32 + ChunkCount(data) * 4 || !Range(offset, 8, |data|) { return None; }
    var bytes := WordAt(data, offset + 4);
    if !Range(offset + 8, bytes, |data|) { return None; }
    return Some(Chunk(WordAt(data, offset), offset + 8, bytes));
  }

  /** One entry of the table: its bounds, the overlap scan, and the tag dispatch. */
  method ReadChunk(data: seq<Byte>, n: nat, spans: array<(nat, nat)>, f: Found) returns (r: Option<Found>)
    requires HeaderOk(data) && n < ChunkCount(data) && TableOk(data, n) && AllCollected(data, n, f)
    requires spans.Length == 32 && SpansOf(data, n, spans[..])
    modifies spans
    ensures r.Some? <==> TableOk(data, n + 1)
    ensures r.Some? ==> AllCollected(data, n + 1, r.value) && SpansOf(data, n + 1, spans[..])
  {
    var chunk := LocateChunk(data, n);
    if chunk.None? {
      assert !ChunkOk(data, n);
      return None;
    }
    spans[n] := (chunk.value.offset - 8, chunk.value.offset + chunk.value.size);
    assert spans[..n] == old(spans[..n]);
    SpansTell(data, n, spans[..]);
    var hit := Overlaps(spans, n);
    if hit {
      Clash(data, n, spans[..]);
      return None;
    }
    AcceptDecides(data, n, f);
    r := Accept(f, chunk.value);
  }

  lemma Clash(data: seq<Byte>, n: nat, spans: seq<(nat, nat)>)
    requires HeaderOk(data) && n < ChunkCount(data) && TableOk(data, n) && ChunkFits(data, n) && |spans| == 32
    requires exists j :: 0 <= j < n && spans[n].0 < spans[j].1 && spans[j].0 < spans[n].1
    requires forall i :: 0 <= i < n && ChunkOk(data, i) ==>
               (Apart(ChunkAt(data, i), ChunkAt(data, n)) <==>
                !(spans[n].0 < spans[i].1 && spans[i].0 < spans[n].1))
    ensures !TableOk(data, n + 1)
  {
    var j :| 0 <= j < n && spans[n].0 < spans[j].1 && spans[j].0 < spans[n].1;
    assert ChunkOk(data, j);
    assert !PairOk(data, j, n);
  }

  /** The overlap condition on spans is the negation of `Apart` on chunks. */
  lemma SpansTell(data: seq<Byte>, n: nat, spans: seq<(nat, nat)>)
    requires HeaderOk(data) && n < ChunkCount(data) && TableOk(data, n) && ChunkFits(data, n)
    requires |spans| == 32 && SpansOf(data, n, spans)
    requires spans[n].0 == ChunkAt(data, n).offset - 8 && spans[n].1 == ChunkAt(data, n).offset + ChunkAt(data, n).size
    ensures forall i :: 0 <= i < n ==> ChunkOk(data, i)
    ensures forall i :: 0 <= i < n && ChunkOk(data, i) ==>
              (Apart(ChunkAt(data, i), ChunkAt(data, n)) <==>
               !(spans[n].0 < spans[i].1 && spans[i].0 < spans[n].1))
    ensures SpansOf(data, n + 1, spans)
  {
  }

  method ReadTable(data: seq<Byte>) returns (r: Option<Found>)
    requires HeaderOk(data)
    ensures r.Some? <==> TableOk(data, ChunkCount(data))
    ensures r.Some? ==> AllCollected(data, ChunkCount(data), r.value)
  {
    var count := ChunkCount(data);
    var spans := new (nat, nat)[32](_ => (0, 0));
    var f := Found(None, None, None, None);
    var n := 0;
    while n < count
      invariant 0 <= n <= count
      invariant TableOk(data, n) && AllCollected(data, n, f) && SpansOf(data, n, spans[..])
    {
      var next := ReadChunk(data, n, spans, f);
      if next.None? {
        if TableOk(data, count) { TableShrinks(data, n + 1, count); }
        return None;
      }
      f := next.value;
      n := n + 1;
    }
    return Some(f);
  }

  /** The program version in the code chunk. */
  method ReadVersion(data: seq<Byte>, code: Chunk, output: Chunk, resources: Chunk) returns (r: Option<Container>)
    requires code.offset + code.size <= |data|
    ensures r.Some? ==> VersionOk(data, r.value) && r.value.code == code && r.value.output == output && r.value.resources == resources
    ensures r.None? ==> forall c :: VersionOk(data, c) ==> c.code != code
  {
    if code.size < 12 || code.size % 4 != 0 { return None; }
    var version := WordAt(data, code.offset);
    var c := Container(code, output, resources, version / 16 % 16, version % 16, version / 0x1_0000);
    if version / 256 % 256 != 0 ||
       !((c.major == 4 && c.minor <= 1) || (c.major == 5 && c.minor <= 1)) {
      return None;
    }
    if WordAt(data, code.offset + 4) != code.size / 4 { return None; }
    return Some(c);
  }

  method ReadContainer(data: seq<Byte>) returns (r: Option<Container>)
    ensures r.Some? ==> IsContainer(data, r.value)
    ensures r.None? ==> forall c :: !IsContainer(data, c)
  {
    if |data| < 32 || |data| > MAX_BLOB || |data| % 4 != 0 { return None; }
    if WordAt(data, 0) != TAG_DXBC || WordAt(data, 20) != 1 || WordAt(data, 24) != |data| { return None; }
    var count := WordAt(data, 28);
    if count < 3 || count > 32 || !Table(32, count, 4, |data|) { return None; }
    var table := ReadTable(data);
    if table.None? { return None; }
    var f := table.value;
    if f.code.Some? { CodeFits(data, f.code.value); }
    OnlyCandidate(data, f);
    if f.code.None? || f.output.None? || f.resources.None? { return None; }
    r := ReadVersion(data, f.code.value, f.output.value, f.resources.value);
  }

  lemma CodeFits(data: seq<Byte>, c: Chunk)
    requires HeaderOk(data) && TableOk(data, ChunkCount(data)) && Holds(data, ChunkCount(data), Code, c)
    ensures c.offset + c.size <= |data|
  {
  }

  /** The collected code chunk is the only candidate, so its defects are the blob's. */
  lemma OnlyCandidate(data: seq<Byte>, f: Found)
    requires HeaderOk(data) && TableOk(data, ChunkCount(data)) && AllCollected(data, ChunkCount(data), f)
    ensures forall c :: IsContainer(data, c) ==> f.output.Some? && f.resources.Some? && f.code == Some(c.code)
  {
    forall c | IsContainer(data, c)
      ensures f.output.Some? && f.resources.Some? && f.code == Some(c.code)
    {
      var i :| 0 <= i < ChunkCount(data) && ChunkOk(data, i) && RoleAt(data, i) == Code && ChunkAt(data, i) == c.code;
      var j :| 0 <= j < ChunkCount(data) && ChunkOk(data, j) && RoleAt(data, j) == Code && ChunkAt(data, j) == f.code.value;
      DistinctRoles(data, i, j);
    }
  }
}
