/**
  Operands of the shader token stream (src/rr_albedo_shader.h:239-335).

  An operand is a tree: a token, extension words, then either immediate words or
  up to three indices, each of which may hold another operand.  `Spells` says
  which words a tree stands for and `OperandOk` which trees are acceptable;
  neither mentions a cursor.  `ReadOperand` is the bounded recursive reader, and
  its contract is that it finds the one acceptable tree spelled at the cursor,
  or that there is none.
*/
module ShaderOperand {
  import opened ShaderBytes
  import opened ShaderResources

  // The parts of the shader that operand checks depend on.
  datatype Shader = Shader(pixel: bool, targetCount: nat, masks: seq<Byte>, model51: bool)

  datatype Operand = Operand(token: Word, extensions: seq<Word>, immediate: seq<Word>, indices: seq<Index>)

  datatype Index = Literal(word: Word) | Relative(base: Operand) | Offset(word: Word, base: Operand)

  // Operand kinds.
  const TEMP := 0
  const INPUT := 1
  const OUTPUT := 2
  const INDEXABLE_TEMP := 3
  const IMMEDIATE := 4
  const PRIMITIVE := 11
  const NULL := 13

  const MAX_NESTING := 4

  // --- Bit fields of an operand token ---

  function Components(token: Word): nat { token % 4 }

  function Selection(token: Word): nat { token / 4 % 4 }

  function WriteMask(token: Word): nat
  {
    if Components(token) == 1 then 1
    else if Components(token) == 2 && Selection(token) == 0 then token / 16 % 16
    else 15
  }

  function Kind(token: Word): nat { token / 0x1000 % 256 }

  function Dimensions(token: Word): nat { token / 0x10_0000 % 4 }

  function Representation(token: Word, i: nat): nat
    requires i < 3
  {
    if i == 0 then token / 0x40_0000 % 8 else if i == 1 then token / 0x200_0000 % 8 else token / 0x1000_0000 % 8
  }

  predicate Extended(w: Word) { w >= HIGH_BIT }

  predicate TokenOk(token: Word)
  {
    && !(Components(token) == 3 || (Components(token) == 2 && Selection(token) == 3))
    && (Kind(token) <= 4 || 6 <= Kind(token) <= 9 || Kind(token) == PRIMITIVE || Kind(token) == NULL)
  }

  predicate IsBound(kind: nat) { kind == SAMPLER || kind == RESOURCE || kind == CONSTANT_BUFFER }

  // --- Extension words ---

  datatype ExtensionRule = OperandRule(nonUniform: bool) | InstructionRule

  function Limit(rule: ExtensionRule): nat { if rule.OperandRule? then 2 else 3 }

  predicate ExtensionOk(rule: ExtensionRule, w: Word)
  {
    match rule
    case OperandRule(nonUniform) =>
      // Modifier kind 1, no unknown control bits, at most absolute-and-negate.
      w % 64 == 1 && w / 64 % 256 <= 3 &&
      (w / 0x400 % 0x20_0000 == 0 || (nonUniform && w / 0x400 % 0x20_0000 == 0x80))
    case InstructionRule =>
      1 <= w % 64 <= 3
  }

  /** A word carries on into the next exactly when its high bit is set. */
  predicate ExtensionsOk(rule: ExtensionRule, first: Word, words: seq<Word>)
  {
    && |words| <= Limit(rule)
    && (forall i :: 0 <= i < |words| ==> ExtensionOk(rule, words[i]))
    && (Extended(first) <==> words != [])
    && (forall i :: 0 <= i < |words| ==> (Extended(words[i]) <==> i + 1 < |words|))
  }

  predicate SpellsWords(words: seq<Word>, code: seq<Word>, pos: nat)
  {
    pos + |words| <= |code| && code[pos..pos + |words|] == words
  }

  lemma SpelledWord(words: seq<Word>, code: seq<Word>, pos: nat)
    requires SpellsWords(words, code, pos)
    ensures forall i :: 0 <= i < |words| ==> words[i] == code[pos + i]
  {
    forall i | 0 <= i < |words| ensures words[i] == code[pos + i] {
      assert code[pos..pos + |words|][i] == words[i];
    }
  }

  lemma NotLonger(rule: ExtensionRule, first: Word, a: seq<Word>, b: seq<Word>, code: seq<Word>, pos: nat)
    requires ExtensionsOk(rule, first, a) && ExtensionsOk(rule, first, b)
    requires SpellsWords(a, code, pos) && SpellsWords(b, code, pos)
    ensures |b| <= |a| && forall i :: 0 <= i < |b| ==> a[i] == b[i]
  {
    SpelledWord(a, code, pos);
    SpelledWord(b, code, pos);
    if a != [] && |a| <= |b| {
      assert a[|a| - 1] == b[|a| - 1];
    }
  }

  lemma ExtensionsUnique(rule: ExtensionRule, first: Word, a: seq<Word>, b: seq<Word>, code: seq<Word>, pos: nat)
    requires ExtensionsOk(rule, first, a) && ExtensionsOk(rule, first, b)
    requires SpellsWords(a, code, pos) && SpellsWords(b, code, pos)
    ensures a == b
  {
    NotLonger(rule, first, a, b, code, pos);
    NotLonger(rule, first, b, a, code, pos);
  }

  /** Extension words read so far, the chain not yet known to end. */
  predicate OpenChain(rule: ExtensionRule, first: Word, words: seq<Word>)
  {
    && |words| <= Limit(rule)
    && (forall i :: 0 <= i < |words| ==> ExtensionOk(rule, words[i]))
    && (words != [] ==> Extended(first))
    && (forall i :: 0 <= i < |words| - 1 ==> Extended(words[i]))
  }

  /** Any acceptable chain is longer than an open one that must go on, and continues with the next word. */
  lemma ChainGoesOn(rule: ExtensionRule, first: Word, words: seq<Word>, x: seq<Word>, code: seq<Word>, pos: nat)
    requires OpenChain(rule, first, words) && SpellsWords(words, code, pos)
    requires Extended(if words == [] then first else words[|words| - 1])
    requires ExtensionsOk(rule, first, x) && SpellsWords(x, code, pos)
    ensures |words| < |x| && x[|words|] == code[pos + |words|]
  {
    SpelledWord(words, code, pos);
    SpelledWord(x, code, pos);
    assert x != [] ==> (Extended(x[|x| - 1]) <==> |x| < |x|);
  }

  /** So there is no acceptable chain when the next word is missing, excluded by the limit, or bad. */
  lemma ChainBreaks(rule: ExtensionRule, first: Word, words: seq<Word>, code: seq<Word>, pos: nat, end: nat)
    requires OpenChain(rule, first, words) && SpellsWords(words, code, pos) && end <= |code|
    requires Extended(if words == [] then first else words[|words| - 1])
    requires pos + |words| >= end || |words| + 1 > Limit(rule) || !ExtensionOk(rule, code[pos + |words|])
    ensures forall x :: ExtensionsOk(rule, first, x) && SpellsWords(x, code, pos) ==> pos + |x| > end
  {
    forall x | ExtensionsOk(rule, first, x) && SpellsWords(x, code, pos) ensures pos + |x| > end {
      ChainGoesOn(rule, first, words, x, code, pos);
    }
  }

  method ReadExtensions(rule: ExtensionRule, code: seq<Word>, pos: nat, end: nat, first: Word)
    returns (r: Option<seq<Word>>)
    requires pos <= end <= |code|
    ensures r.Some? ==> ExtensionsOk(rule, first, r.value) && SpellsWords(r.value, code, pos) && pos + |r.value| <= end
    ensures r.None? ==> forall x :: ExtensionsOk(rule, first, x) && SpellsWords(x, code, pos) ==> pos + |x| > end
  {
    var ext := first;
    var words: seq<Word> := [];
    while Extended(ext)
      invariant OpenChain(rule, first, words) && pos + |words| <= end && SpellsWords(words, code, pos)
      invariant ext == if words == [] then first else words[|words| - 1]
      decreases Limit(rule) - |words|
    {
      if pos + |words| >= end || |words| + 1 > Limit(rule) || !ExtensionOk(rule, code[pos + |words|]) {
        ChainBreaks(rule, first, words, code, pos, end);
        return None;
      }
      ext := code[pos + |words|];
      assert code[pos..pos + |words| + 1] == code[pos..pos + |words|] + [ext];
      words := words + [ext];
    }
    return Some(words);
  }

  // --- Spelling: which words a tree stands for ---

  function Size(t: Operand): (n: nat)
    ensures n >= 1
  {
    1 + |t.extensions| + |t.immediate| + SizeOfIndices(t.indices)
  }

  function SizeOfIndices(xs: seq<Index>): nat
  {
    if xs == [] then 0 else SizeOfIndices(xs[..|xs| - 1]) + SizeOfIndex(xs[|xs| - 1])
  }

  function SizeOfIndex(x: Index): nat
  {
    match x
    case Literal(_) => 1
    case Relative(base) => Size(base)
    case Offset(_, base) => 1 + Size(base)
  }

  predicate Spells(t: Operand, code: seq<Word>, pos: nat)
  {
    && pos < |code| && code[pos] == t.token
    && SpellsWords(t.extensions, code, pos + 1)
    && SpellsWords(t.immediate, code, pos + 1 + |t.extensions|)
    && SpellsIndices(t.indices, code, pos + 1 + |t.extensions| + |t.immediate|)
  }

  predicate SpellsIndices(xs: seq<Index>, code: seq<Word>, pos: nat)
  {
    xs == [] ||
    (SpellsIndices(xs[..|xs| - 1], code, pos) &&
     SpellsIndex(xs[|xs| - 1], code, pos + SizeOfIndices(xs[..|xs| - 1])))
  }

  predicate SpellsIndex(x: Index, code: seq<Word>, pos: nat)
  {
    match x
    case Literal(w) => pos < |code| && code[pos] == w
    case Relative(base) => Spells(base, code, pos)
    case Offset(w, base) => pos < |code| && code[pos] == w && Spells(base, code, pos + 1)
  }

  // --- Acceptable trees ---

  function ImmediateWords(token: Word): nat
  {
    if Components(token) == 1 then 1 else if Components(token) == 2 then 4 else 0
  }

  function ExpectedDimensions(sh: Shader, declaration: bool, kind: nat): nat
  {
    if sh.model51 && (kind == SAMPLER || kind == RESOURCE) then (if declaration then 3 else 2)
    else if sh.model51 && kind == CONSTANT_BUFFER then 3
    else if kind == INDEXABLE_TEMP || kind == CONSTANT_BUFFER then 2
    else if kind == PRIMITIVE || kind == NULL then 0
    else 1
  }

  /** Some tree is nested no deeper than allowed and each of its nodes is acceptable where it stands. */
  predicate OperandOk(sh: Shader, bindings: seq<Binding>, t: Operand, nesting: nat, declaration: bool)
    decreases t, 0
  {
    && nesting <= MAX_NESTING
    && TokenOk(t.token)
    && ExtensionsOk(OperandRule(sh.model51 && !declaration && IsBound(Kind(t.token))), t.token, t.extensions)
    && if Kind(t.token) == IMMEDIATE then
         && Dimensions(t.token) == 0 && t.indices == []
         && |t.immediate| == ImmediateWords(t.token) != 0
       else
         && t.immediate == []
         && Dimensions(t.token) == ExpectedDimensions(sh, declaration, Kind(t.token)) == |t.indices|
         && (forall i :: 0 <= i < |t.indices| ==> IndexOk(sh, bindings, t.token, i, t.indices[i], nesting))
         && NodeOk(sh, bindings, t, declaration)
  }

  predicate IndexOk(sh: Shader, bindings: seq<Binding>, token: Word, i: nat, x: Index, nesting: nat)
    decreases x, 0
  {
    && i < 3
    && match x
       case Literal(_) => Representation(token, i) == 0
       case Relative(base) => Representation(token, i) == 2 && BaseOk(sh, bindings, base, nesting)
       case Offset(_, base) => Representation(token, i) == 3 && BaseOk(sh, bindings, base, nesting)
  }

  /** Only registers index registers. */
  predicate BaseOk(sh: Shader, bindings: seq<Binding>, base: Operand, nesting: nat)
    decreases base, 1
  {
    OperandOk(sh, bindings, base, nesting + 1, false) && IndexesRegisters(base)
  }

  predicate IndexesRegisters(base: Operand)
  {
    Kind(base.token) == TEMP || Kind(base.token) == INPUT || Kind(base.token) == INDEXABLE_TEMP
  }

  predicate ImmediateAt(t: Operand, i: nat) { i < |t.indices| && t.indices[i].Literal? }

  function IndexWord(t: Operand, i: nat): Word
  {
    if i < |t.indices| && !t.indices[i].Relative? then t.indices[i].word else 0
  }

  /** The first binding of a class with an identifier. */
  function Find(bindings: seq<Binding>, kind: nat, identifier: Word): (r: Option<nat>)
    ensures r.Some? ==> r.value < |bindings|
  {
    FindFrom(bindings, kind, identifier, 0)
  }

  function FindFrom(bindings: seq<Binding>, kind: nat, identifier: Word, i: nat): (r: Option<nat>)
    requires i <= |bindings|
    ensures r.Some? ==> r.value < |bindings|
    decreases |bindings| - i
  {
    if i == |bindings| then None
    else if Matches(bindings[i], kind, identifier) then Some(i)
    else FindFrom(bindings, kind, identifier, i + 1)
  }

  predicate Matches(b: Binding, kind: nat, identifier: Word)
  {
    b.operandType == kind && b.identifier == identifier
  }

  lemma {:induction false} FindFirst(bindings: seq<Binding>, kind: nat, identifier: Word, i: nat)
    requires i <= |bindings|
    ensures var r := FindFrom(bindings, kind, identifier, i);
            && (r.Some? ==> i <= r.value && Matches(bindings[r.value], kind, identifier))
            && forall k :: i <= k < (if r.Some? then r.value else |bindings|) ==> !Matches(bindings[k], kind, identifier)
    decreases |bindings| - i
  {
    if i < |bindings| && !Matches(bindings[i], kind, identifier) {
      FindFirst(bindings, kind, identifier, i + 1);
    }
  }

  /** A use of a 5.1 binding: declared earlier, and within its range where the index is known. */
  predicate UseOk(bindings: seq<Binding>, t: Operand)
  {
    var found := Find(bindings, Kind(t.token), IndexWord(t, 0));
    && ImmediateAt(t, 0)
    && found.Some?
    && var b := bindings[found.value];
       && b.declared
       && (ImmediateAt(t, 1) ==> b.first <= IndexWord(t, 1) <= b.last)
       && (Kind(t.token) == CONSTANT_BUFFER && ImmediateAt(t, 2) && b.vectorCount != 0 ==>
             IndexWord(t, 2) < b.vectorCount)
  }

  predicate NodeOk(sh: Shader, bindings: seq<Binding>, t: Operand, declaration: bool)
  {
    && (Kind(t.token) == OUTPUT ==>
          |t.indices| == 1 && ImmediateAt(t, 0) &&
          IndexWord(t, 0) < (if sh.pixel then sh.targetCount else 32))
    && (sh.model51 && IsBound(Kind(t.token)) ==>
          if declaration then
            ImmediateAt(t, 0) && ImmediateAt(t, 1) && ImmediateAt(t, 2) && IndexWord(t, 1) <= IndexWord(t, 2)
          else
            UseOk(bindings, t))
  }

  /** `a` has no bit that `b` lacks; both are four bits wide. */
  predicate MaskWithin(a: nat, b: nat)
  {
    && a % 2 <= b % 2 && a / 2 % 2 <= b / 2 % 2 && a / 4 % 2 <= b / 4 % 2 && a / 8 % 2 <= b / 8 % 2
  }

  predicate DestinationOk(sh: Shader, t: Operand)
  {
    && (Kind(t.token) == NULL || Components(t.token) == 1 || (Components(t.token) == 2 && Selection(t.token) == 0))
    && (Kind(t.token) == TEMP || Kind(t.token) == OUTPUT || Kind(t.token) == INDEXABLE_TEMP || Kind(t.token) == NULL)
    && (Kind(t.token) == OUTPUT && sh.pixel ==>
          IndexWord(t, 0) < |sh.masks| && MaskWithin(WriteMask(t.token), sh.masks[IndexWord(t, 0)]))
  }

  // --- Positions inside a list of indices ---

  lemma {:induction false} IndicesSplit(xs: seq<Index>, i: nat, code: seq<Word>, pos: nat)
    requires i < |xs| && SpellsIndices(xs, code, pos)
    ensures SpellsIndices(xs[..i], code, pos)
    ensures SpellsIndex(xs[i], code, pos + SizeOfIndices(xs[..i]))
    ensures SizeOfIndices(xs[..i]) + SizeOfIndex(xs[i]) <= SizeOfIndices(xs)
    decreases |xs|
  {
    if i + 1 < |xs| {
      var front := xs[..|xs| - 1];
      IndicesSplit(front, i, code, pos);
      assert front[..i] == xs[..i];
    }
  }

  lemma IndicesSnoc(xs: seq<Index>, x: Index, code: seq<Word>, pos: nat)
    ensures SizeOfIndices(xs + [x]) == SizeOfIndices(xs) + SizeOfIndex(x)
    ensures SpellsIndices(xs, code, pos) && SpellsIndex(x, code, pos + SizeOfIndices(xs)) ==>
              SpellsIndices(xs + [x], code, pos)
  {
    assert (xs + [x])[..|xs|] == xs;
  }

  // --- The spelling determines the tree ---

  lemma {:induction false} OperandUnique(
    sh: Shader, bindings: seq<Binding>, a: Operand, b: Operand, nesting: nat, declaration: bool,
    code: seq<Word>, pos: nat)
    requires OperandOk(sh, bindings, a, nesting, declaration) && OperandOk(sh, bindings, b, nesting, declaration)
    requires Spells(a, code, pos) && Spells(b, code, pos)
    ensures a == b
    decreases a, 0
  {
    ExtensionsUnique(OperandRule(sh.model51 && !declaration && IsBound(Kind(a.token))), a.token,
                     a.extensions, b.extensions, code, pos + 1);
    if Kind(a.token) != IMMEDIATE {
      IndicesUnique(sh, bindings, a, b, |a.indices|, nesting, code, pos + 1 + |a.extensions|);
      assert a.indices == a.indices[..|a.indices|] && b.indices == b.indices[..|a.indices|];
    }
  }

  lemma {:induction false} IndicesUnique(
    sh: Shader, bindings: seq<Binding>, a: Operand, b: Operand, n: nat, nesting: nat, code: seq<Word>, pos: nat)
    requires n <= |a.indices| == |b.indices| && a.token == b.token
    requires forall i :: 0 <= i < |a.indices| ==> IndexOk(sh, bindings, a.token, i, a.indices[i], nesting)
    requires forall i :: 0 <= i < |b.indices| ==> IndexOk(sh, bindings, b.token, i, b.indices[i], nesting)
    requires SpellsIndices(a.indices, code, pos) && SpellsIndices(b.indices, code, pos)
    ensures a.indices[..n] == b.indices[..n]
    decreases a.indices, n
  {
    if n > 0 {
      var i := n - 1;
      IndicesUnique(sh, bindings, a, b, i, nesting, code, pos);
      IndicesSplit(a.indices, i, code, pos);
      IndicesSplit(b.indices, i, code, pos);
      IndexUnique(sh, bindings, a.token, i, a.indices[i], b.indices[i], nesting, code, pos + SizeOfIndices(a.indices[..i]));
      SamePrefix(a.indices, b.indices, i);
    }
  }

  lemma SamePrefix(xs: seq<Index>, ys: seq<Index>, i: nat)
    requires i < |xs| == |ys| && xs[..i] == ys[..i] && xs[i] == ys[i]
    ensures xs[..i + 1] == ys[..i + 1]
  {
    assert xs[..i + 1] == xs[..i] + [xs[i]] && ys[..i + 1] == ys[..i] + [ys[i]];
  }

  lemma {:induction false} IndexUnique(
    sh: Shader, bindings: seq<Binding>, token: Word, i: nat, x: Index, y: Index, nesting: nat,
    code: seq<Word>, pos: nat)
    requires IndexOk(sh, bindings, token, i, x, nesting) && IndexOk(sh, bindings, token, i, y, nesting)
    requires SpellsIndex(x, code, pos) && SpellsIndex(y, code, pos)
    ensures x == y
    decreases x, 0
  {
    if x.Relative? {
      OperandUnique(sh, bindings, x.base, y.base, nesting + 1, false, code, pos);
    } else if x.Offset? {
      OperandUnique(sh, bindings, x.base, y.base, nesting + 1, false, code, pos + 1);
    }
  }

  // --- The reader ---

  ghost predicate OperandAt(
    sh: Shader, bindings: seq<Binding>, code: seq<Word>, pos: nat, end: nat, nesting: nat, declaration: bool, t: Operand)
  {
    OperandOk(sh, bindings, t, nesting, declaration) && Spells(t, code, pos) && pos + Size(t) <= end
  }

  ghost predicate IndexAt(
    sh: Shader, bindings: seq<Binding>, token: Word, i: nat, code: seq<Word>, pos: nat, end: nat, nesting: nat, x: Index)
  {
    IndexOk(sh, bindings, token, i, x, nesting) && SpellsIndex(x, code, pos) && pos + SizeOfIndex(x) <= end
  }

  ghost predicate IndicesAt(
    sh: Shader, bindings: seq<Binding>, token: Word, n: nat, code: seq<Word>, pos: nat, end: nat, nesting: nat,
    xs: seq<Index>)
  {
    && |xs| == n
    && (forall i :: 0 <= i < n ==> IndexOk(sh, bindings, token, i, xs[i], nesting))
    && SpellsIndices(xs, code, pos) && pos + SizeOfIndices(xs) <= end
  }

  /** The shape of an acceptable index follows its representation bits. */
  lemma IndexShape(
    sh: Shader, bindings: seq<Binding>, token: Word, i: nat, code: seq<Word>, pos: nat, end: nat, nesting: nat, x: Index)
    requires IndexAt(sh, bindings, token, i, code, pos, end, nesting, x)
    ensures Representation(token, i) == if x.Literal? then 0 else if x.Relative? then 2 else 3
    ensures !x.Relative? ==> pos < end && x.word == code[pos]
    ensures !x.Literal? ==>
              var cursor := pos + if x.Relative? then 0 else 1;
              && OperandAt(sh, bindings, code, cursor, end, nesting + 1, false, x.base)
              && IndexesRegisters(x.base)
  {
    if !x.Literal? {
      assert BaseOk(sh, bindings, x.base, nesting);
    }
  }

  method ReadIndex(sh: Shader, bindings: seq<Binding>, token: Word, i: nat, code: seq<Word>, pos: nat, end: nat, nesting: nat)
    returns (r: Option<Index>)
    requires pos <= end <= |code| && i < 3 && nesting <= MAX_NESTING
    ensures r.Some? ==> IndexAt(sh, bindings, token, i, code, pos, end, nesting, r.value)
    ensures r.None? ==> forall x :: !IndexAt(sh, bindings, token, i, code, pos, end, nesting, x)
    decreases MAX_NESTING + 1 - nesting, 0
  {
    forall x | IndexAt(sh, bindings, token, i, code, pos, end, nesting, x)
      ensures Representation(token, i) == if x.Literal? then 0 else if x.Relative? then 2 else 3
      ensures !x.Relative? ==> pos < end
      ensures !x.Literal? ==>
                OperandAt(sh, bindings, code, pos + if x.Relative? then 0 else 1, end, nesting + 1, false, x.base) &&
                IndexesRegisters(x.base)
    {
      IndexShape(sh, bindings, token, i, code, pos, end, nesting, x);
    }
    var representation := Representation(token, i);
    var cursor, word := pos, 0;
    if representation == 0 || representation == 3 {
      if cursor >= end { return None; }
      word := code[cursor];
      cursor := cursor + 1;
    }
    if representation == 2 || representation == 3 {
      var inner := nesting + 1;
      var base := ReadOperand(sh, bindings, code, cursor, end, inner, false);
      if base.None? { return None; }
      if !IndexesRegisters(base.value) {
        forall t | OperandAt(sh, bindings, code, cursor, end, inner, false, t) ensures t == base.value {
          OperandUnique(sh, bindings, t, base.value, inner, false, code, cursor);
        }
        return None;
      }
      assert BaseOk(sh, bindings, base.value, nesting);
      return Some(if representation == 2 then Relative(base.value) else Offset(word, base.value));
    }
    if representation != 0 { return None; }
    return Some(Literal(word));
  }

  lemma GrowIndices(
    sh: Shader, bindings: seq<Binding>, token: Word, code: seq<Word>, pos: nat, end: nat, nesting: nat,
    xs: seq<Index>, x: Index)
    requires IndicesAt(sh, bindings, token, |xs|, code, pos, end, nesting, xs)
    requires IndexAt(sh, bindings, token, |xs|, code, pos + SizeOfIndices(xs), end, nesting, x)
    ensures IndicesAt(sh, bindings, token, |xs| + 1, code, pos, end, nesting, xs + [x])
  {
    IndicesSnoc(xs, x, code, pos);
  }

  /** The index at the cursor is the next index of every list that begins with those already read. */
  lemma NextIndex(
    sh: Shader, bindings: seq<Binding>, token: Word, n: nat, code: seq<Word>, pos: nat, end: nat, nesting: nat,
    i: nat, ys: seq<Index>)
    requires i < n && IndicesAt(sh, bindings, token, n, code, pos, end, nesting, ys)
    ensures IndexAt(sh, bindings, token, i, code, pos + SizeOfIndices(ys[..i]), end, nesting, ys[i])
    ensures ys[..i + 1] == ys[..i] + [ys[i]]
  {
    IndicesSplit(ys, i, code, pos);
  }

  method ReadIndices(sh: Shader, bindings: seq<Binding>, token: Word, n: nat, code: seq<Word>, pos: nat, end: nat, nesting: nat)
    returns (r: Option<seq<Index>>)
    requires pos <= end <= |code| && n <= 3 && nesting <= MAX_NESTING
    ensures r.Some? ==> IndicesAt(sh, bindings, token, n, code, pos, end, nesting, r.value)
    ensures r.None? ==> forall xs :: !IndicesAt(sh, bindings, token, n, code, pos, end, nesting, xs)
    decreases MAX_NESTING + 1 - nesting, 1
  {
    var xs: seq<Index> := [];
    var cursor := pos;
    while |xs| < n
      invariant |xs| <= n && cursor == pos + SizeOfIndices(xs)
      invariant IndicesAt(sh, bindings, token, |xs|, code, pos, end, nesting, xs)
      invariant forall ys :: IndicesAt(sh, bindings, token, n, code, pos, end, nesting, ys) ==> ys[..|xs|] == xs
      decreases n - |xs|
    {
      forall ys | IndicesAt(sh, bindings, token, n, code, pos, end, nesting, ys)
        ensures IndexAt(sh, bindings, token, |xs|, code, cursor, end, nesting, ys[|xs|])
        ensures ys[..|xs| + 1] == xs + [ys[|xs|]]
      {
        NextIndex(sh, bindings, token, n, code, pos, end, nesting, |xs|, ys);
      }
      var x := ReadIndex(sh, bindings, token, |xs|, code, cursor, end, nesting);
      if x.None? { return None; }
      forall y | IndexAt(sh, bindings, token, |xs|, code, cursor, end, nesting, y) ensures y == x.value {
        IndexUnique(sh, bindings, token, |xs|, y, x.value, nesting, code, cursor);
      }
      GrowIndices(sh, bindings, token, code, pos, end, nesting, xs, x.value);
      xs := xs + [x.value];
      cursor := pos + SizeOfIndices(xs);
    }
    return Some(xs);
  }

  /** What any acceptable operand at `pos` has in common with the parts read so far. */
  lemma SameStart(
    sh: Shader, bindings: seq<Binding>, code: seq<Word>, pos: nat, end: nat, nesting: nat, declaration: bool,
    t: Operand, extensions: seq<Word>)
    requires OperandAt(sh, bindings, code, pos, end, nesting, declaration, t)
    requires ExtensionsOk(OperandRule(sh.model51 && !declaration && IsBound(Kind(code[pos]))), code[pos], extensions)
    requires SpellsWords(extensions, code, pos + 1)
    ensures t.token == code[pos] && t.extensions == extensions
    ensures Kind(code[pos]) != IMMEDIATE ==>
              IndicesAt(sh, bindings, code[pos], Dimensions(code[pos]), code, pos + 1 + |extensions|, end, nesting, t.indices)
  {
    ExtensionsUnique(OperandRule(sh.model51 && !declaration && IsBound(Kind(code[pos]))), code[pos],
                     t.extensions, extensions, code, pos + 1);
  }

  lemma SameIndices(
    sh: Shader, bindings: seq<Binding>, code: seq<Word>, pos: nat, end: nat, nesting: nat, t: Operand, u: Operand)
    requires IndicesAt(sh, bindings, t.token, |t.indices|, code, pos, end, nesting, t.indices)
    requires IndicesAt(sh, bindings, u.token, |u.indices|, code, pos, end, nesting, u.indices)
    requires t.token == u.token && |t.indices| == |u.indices|
    ensures t.indices == u.indices
  {
    IndicesUnique(sh, bindings, t, u, |t.indices|, nesting, code, pos);
    assert t.indices[..|t.indices|] == t.indices && u.indices[..|t.indices|] == u.indices;
  }

  method ReadOperand(
    sh: Shader, bindings: seq<Binding>, code: seq<Word>, pos: nat, end: nat, nesting: nat, declaration: bool)
    returns (r: Option<Operand>)
    requires end <= |code| && nesting <= MAX_NESTING + 1
    ensures r.Some? ==> OperandAt(sh, bindings, code, pos, end, nesting, declaration, r.value)
    ensures r.None? ==> forall t :: !OperandAt(sh, bindings, code, pos, end, nesting, declaration, t)
    decreases MAX_NESTING + 1 - nesting, 3
  {
    if nesting > MAX_NESTING || pos >= end { return None; }
    var token := code[pos];
    if !TokenOk(token) { return None; }
    var rule := OperandRule(sh.model51 && !declaration && IsBound(Kind(token)));
    var extensions := ReadExtensions(rule, code, pos + 1, end, token);
    if extensions.None? { return None; }
    if Kind(token) == IMMEDIATE {
      r := ReadImmediate(sh, bindings, code, pos, end, nesting, declaration, extensions.value);
    } else {
      r := ReadRest(sh, bindings, code, pos, end, nesting, declaration, extensions.value);
    }
  }

  /** What follows the token and its extensions when the operand is immediate. */
  method ReadImmediate(
    sh: Shader, bindings: seq<Binding>, code: seq<Word>, pos: nat, end: nat, nesting: nat, declaration: bool,
    extensions: seq<Word>)
    returns (r: Option<Operand>)
    requires end <= |code| && nesting <= MAX_NESTING && pos < end && TokenOk(code[pos]) && Kind(code[pos]) == IMMEDIATE
    requires ExtensionsOk(OperandRule(sh.model51 && !declaration && IsBound(Kind(code[pos]))), code[pos], extensions)
    requires SpellsWords(extensions, code, pos + 1) && pos + 1 + |extensions| <= end
    ensures r.Some? ==> OperandAt(sh, bindings, code, pos, end, nesting, declaration, r.value)
    ensures r.None? ==> forall t :: !OperandAt(sh, bindings, code, pos, end, nesting, declaration, t)
  {
    var token, cursor := code[pos], pos + 1 + |extensions|;
    var words := ImmediateWords(token);
    if Dimensions(token) != 0 || words == 0 || words > end - cursor {
      forall t | OperandAt(sh, bindings, code, pos, end, nesting, declaration, t)
        ensures t.token == token && t.extensions == extensions
      {
        SameStart(sh, bindings, code, pos, end, nesting, declaration, t, extensions);
      }
      return None;
    }
    return Some(Operand(token, extensions, code[cursor..cursor + words], []));
  }

  /** What follows the token and its extensions otherwise: the indices, then the checks on the whole node. */
  method ReadRest(
    sh: Shader, bindings: seq<Binding>, code: seq<Word>, pos: nat, end: nat, nesting: nat, declaration: bool,
    extensions: seq<Word>)
    returns (r: Option<Operand>)
    requires end <= |code| && nesting <= MAX_NESTING && pos < end && TokenOk(code[pos]) && Kind(code[pos]) != IMMEDIATE
    requires ExtensionsOk(OperandRule(sh.model51 && !declaration && IsBound(Kind(code[pos]))), code[pos], extensions)
    requires SpellsWords(extensions, code, pos + 1) && pos + 1 + |extensions| <= end
    ensures r.Some? ==> OperandAt(sh, bindings, code, pos, end, nesting, declaration, r.value)
    ensures r.None? ==> forall t :: !OperandAt(sh, bindings, code, pos, end, nesting, declaration, t)
    decreases MAX_NESTING + 1 - nesting, 2
  {
    var token, cursor := code[pos], pos + 1 + |extensions|;
    forall t | OperandAt(sh, bindings, code, pos, end, nesting, declaration, t)
      ensures t.token == token && t.extensions == extensions
      ensures IndicesAt(sh, bindings, token, Dimensions(token), code, cursor, end, nesting, t.indices)
    {
      SameStart(sh, bindings, code, pos, end, nesting, declaration, t, extensions);
    }
    if Dimensions(token) != ExpectedDimensions(sh, declaration, Kind(token)) { return None; }
    var indices := ReadIndices(sh, bindings, token, Dimensions(token), code, cursor, end, nesting);
    if indices.None? { return None; }
    var t := Operand(token, extensions, [], indices.value);
    if !NodeOk(sh, bindings, t, declaration) {
      OnlyTree(sh, bindings, code, pos, end, nesting, declaration, t);
      return None;
    }
    return Some(t);
  }

  /** No other tree can stand where one has been read up to its last check. */
  lemma OnlyTree(
    sh: Shader, bindings: seq<Binding>, code: seq<Word>, pos: nat, end: nat, nesting: nat, declaration: bool, t: Operand)
    requires pos < end <= |code| && t.token == code[pos] && Kind(t.token) != IMMEDIATE && t.immediate == []
    requires ExtensionsOk(OperandRule(sh.model51 && !declaration && IsBound(Kind(code[pos]))), code[pos], t.extensions)
    requires SpellsWords(t.extensions, code, pos + 1)
    requires IndicesAt(sh, bindings, t.token, Dimensions(t.token), code, pos + 1 + |t.extensions|, end, nesting, t.indices)
    ensures forall u :: OperandAt(sh, bindings, code, pos, end, nesting, declaration, u) ==> u == t
  {
    forall u | OperandAt(sh, bindings, code, pos, end, nesting, declaration, u) ensures u == t {
      SameStart(sh, bindings, code, pos, end, nesting, declaration, u, t.extensions);
      SameIndices(sh, bindings, code, pos + 1 + |t.extensions|, end, nesting, t, u);
    }
  }
}
