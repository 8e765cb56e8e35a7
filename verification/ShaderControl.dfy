/**
  Structured control flow of the shader token stream (src/rr_albedo_shader.h).

  The program reader keeps a fixed stack of open blocks and checks every
  executable opcode against it.  This module states that discipline as a
  function on stacks, gives the grammar of structured programs independently of
  any stack, and proves that the two accept the same opcode sequences.
*/
module ShaderControl {

  // Opcodes that take part in control flow.
  const BREAK := 2
  const BREAK_C := 3
  const CASE := 6
  const CONTINUE := 7
  const CONTINUE_C := 8
  const DEFAULT := 10
  const ELSE := 18
  const END_IF := 21
  const END_LOOP := 22
  const END_SWITCH := 23
  const IF := 31
  const LOOP := 48
  const SWITCH := 76

  // What the block stack stores for an `if` whose `else` was seen.
  const ELSE_SEEN := 0x100 + IF

  const MAX_DEPTH := 64

  predicate Opens(op: nat) { op == IF || op == LOOP || op == SWITCH }

  predicate Closes(op: nat) { op == END_IF || op == END_LOOP || op == END_SWITCH }

  predicate Breaks(op: nat) { op == BREAK || op == BREAK_C }

  predicate Continues(op: nat) { op == CONTINUE || op == CONTINUE_C }

  predicate Labels(op: nat) { op == CASE || op == DEFAULT }

  function OpenerOf(close: nat): (op: nat)
  {
    if close == END_IF then IF else if close == END_LOOP then LOOP else SWITCH
  }

  /** Some enclosing block is a loop, or a switch when `switchCounts`. */
  predicate Encloses(blocks: seq<nat>, switchCounts: bool)
  {
    exists i :: 0 <= i < |blocks| && (blocks[i] == LOOP || (switchCounts && blocks[i] == SWITCH))
  }

  /** The stack discipline: what may follow the open blocks, and what is open afterwards. */
  predicate Permitted(blocks: seq<nat>, op: nat)
  {
    if Opens(op) then |blocks| != MAX_DEPTH
    else if Closes(op) then blocks != [] && blocks[|blocks| - 1] % 256 == OpenerOf(op)
    else if op == ELSE then blocks != [] && blocks[|blocks| - 1] == IF
    else if Labels(op) then blocks != [] && blocks[|blocks| - 1] == SWITCH
    else if Breaks(op) || Continues(op) then Encloses(blocks, Breaks(op))
    else true
  }

  function Advance(blocks: seq<nat>, op: nat): seq<nat>
    requires Permitted(blocks, op)
  {
    if Opens(op) then blocks + [op]
    else if Closes(op) then blocks[..|blocks| - 1]
    else if op == ELSE then blocks[..|blocks| - 1] + [ELSE_SEEN]
    else blocks
  }

  /** Every opcode of `ops` is permitted in turn, starting from `blocks`. */
  predicate Checks(blocks: seq<nat>, ops: seq<nat>)
    decreases |ops|
  {
    ops == [] || (Permitted(blocks, ops[0]) && Checks(Advance(blocks, ops[0]), ops[1..]))
  }

  /** The open blocks after `ops`. */
  function Remaining(blocks: seq<nat>, ops: seq<nat>): seq<nat>
    requires Checks(blocks, ops)
    decreases |ops|
  {
    if ops == [] then blocks else Remaining(Advance(blocks, ops[0]), ops[1..])
  }

  lemma CheckFirst(blocks: seq<nat>, op: nat, rest: seq<nat>)
    ensures Checks(blocks, [op] + rest) <==> Permitted(blocks, op) && Checks(Advance(blocks, op), rest)
    ensures Checks(blocks, [op] + rest) ==>
              Remaining(blocks, [op] + rest) == Remaining(Advance(blocks, op), rest)
  {
    assert ([op] + rest)[1..] == rest;
  }

  lemma {:induction false} CheckLast(blocks: seq<nat>, ops: seq<nat>, op: nat)
    ensures Checks(blocks, ops + [op]) <==> Checks(blocks, ops) && Permitted(Remaining(blocks, ops), op)
    ensures Checks(blocks, ops + [op]) ==>
              Remaining(blocks, ops + [op]) == Advance(Remaining(blocks, ops), op)
    decreases |ops|
  {
    if ops == [] {
      assert [] + [op] == [op] && [op][1..] == [];
    } else {
      assert ops + [op] == [ops[0]] + (ops[1..] + [op]);
      CheckFirst(blocks, ops[0], ops[1..] + [op]);
      if Permitted(blocks, ops[0]) {
        CheckLast(Advance(blocks, ops[0]), ops[1..], op);
      }
    }
  }

  /** One opcode against the array of open blocks, `depth` of which are in use. */
  method CheckOpcode(blocks: array<nat>, depth: nat, op: nat) returns (ok: bool, depth': nat)
    requires blocks.Length == MAX_DEPTH && depth <= MAX_DEPTH
    modifies blocks
    ensures ok <==> Permitted(old(blocks[..depth]), op)
    ensures ok ==> depth' <= MAX_DEPTH && blocks[..depth'] == Advance(old(blocks[..depth]), op)
  {
    ok, depth' := true, depth;
    if op == IF || op == LOOP || op == SWITCH {
      if depth == blocks.Length { return false, depth; }
      blocks[depth] := op;
      depth' := depth + 1;
      assert blocks[..depth] == old(blocks[..depth]);
    } else if op == END_IF || op == END_LOOP || op == END_SWITCH {
      var expected := if op == END_IF then IF else if op == END_LOOP then LOOP else SWITCH;
      if depth == 0 || blocks[depth - 1] % 256 != expected { return false, depth; }
      depth' := depth - 1;
      assert blocks[..depth'] == old(blocks[..depth])[..depth - 1];
    } else if op == ELSE {
      if depth == 0 || blocks[depth - 1] != IF { return false, depth; }
      blocks[depth - 1] := ELSE_SEEN;
      assert blocks[..depth] == old(blocks[..depth])[..depth - 1] + [ELSE_SEEN];
    } else if op == CASE || op == DEFAULT {
      if depth == 0 || blocks[depth - 1] != SWITCH { return false, depth; }
    } else if op == BREAK || op == BREAK_C || op == CONTINUE || op == CONTINUE_C {
      var i := 0;
      ok := false;
      while i < depth
        invariant 0 <= i <= depth && blocks[..depth] == old(blocks[..depth])
        invariant ok <==> Encloses(blocks[..i], Breaks(op))
      {
        assert blocks[..i + 1] == blocks[..i] + [blocks[i]];
        EnclosesLast(blocks[..i], blocks[i], Breaks(op));
        ok := ok || blocks[i] == LOOP || ((op == BREAK || op == BREAK_C) && blocks[i] == SWITCH);
        i := i + 1;
      }
    }
  }

  lemma EnclosesLast(blocks: seq<nat>, b: nat, switchCounts: bool)
    ensures Encloses(blocks + [b], switchCounts) <==>
            Encloses(blocks, switchCounts) || b == LOOP || (switchCounts && b == SWITCH)
  {
    var all := blocks + [b];
    assert all[|blocks|] == b;
    if Encloses(blocks, switchCounts) {
      var i :| 0 <= i < |blocks| && (blocks[i] == LOOP || (switchCounts && blocks[i] == SWITCH));
      assert all[i] == blocks[i];
    }
  }

  /**
    A structured program: statements in sequence, each plain, an `if` with or
    without its `else`, a loop, or a switch.
  */
  datatype Code =
    | End
    | Plain(op: nat, next: Code)
    | If(thn: Code, next: Code)
    | IfElse(thn: Code, els: Code, next: Code)
    | Loop(body: Code, next: Code)
    | Switch(body: Code, next: Code)

  /** The opcodes of a structured program in order, followed by `rest`. */
  function Emit(c: Code, rest: seq<nat>): seq<nat>
  {
    match c
    case End => rest
    case Plain(op, next) => [op] + Emit(next, rest)
    case If(t, next) => [IF] + Emit(t, [END_IF] + Emit(next, rest))
    case IfElse(t, e, next) => [IF] + Emit(t, [ELSE] + Emit(e, [END_IF] + Emit(next, rest)))
    case Loop(b, next) => [LOOP] + Emit(b, [END_LOOP] + Emit(next, rest))
    case Switch(b, next) => [SWITCH] + Emit(b, [END_SWITCH] + Emit(next, rest))
  }

  /** Where a statement list stands; `room` is how many more levels may be opened. */
  datatype Place = Place(inLoop: bool, inSwitch: bool, caseAllowed: bool, room: nat)

  const TOP := Place(false, false, false, 64)

  /** The grammar, with no stack in sight. */
  predicate Structured(c: Code, p: Place)
  {
    match c
    case End => true
    case Plain(op, next) =>
      && !Opens(op) && !Closes(op) && op != ELSE
      && (Labels(op) ==> p.caseAllowed)
      && (Breaks(op) ==> p.inLoop || p.inSwitch)
      && (Continues(op) ==> p.inLoop)
      && Structured(next, p)
    case If(t, next) =>
      p.room > 0 && Structured(t, InIf(p)) && Structured(next, p)
    case IfElse(t, e, next) =>
      p.room > 0 && Structured(t, InIf(p)) && Structured(e, InIf(p)) && Structured(next, p)
    case Loop(b, next) =>
      p.room > 0 && Structured(b, InLoop(p)) && Structured(next, p)
    case Switch(b, next) =>
      p.room > 0 && Structured(b, InSwitch(p)) && Structured(next, p)
  }

  function InIf(p: Place): Place
    requires p.room > 0
  {
    Place(p.inLoop, p.inSwitch, false, p.room - 1)
  }

  function InLoop(p: Place): Place
    requires p.room > 0
  {
    Place(true, p.inSwitch, false, p.room - 1)
  }

  function InSwitch(p: Place): Place
    requires p.room > 0
  {
    Place(p.inLoop, true, true, p.room - 1)
  }

  /** The place a block stack describes. */
  function PlaceOf(blocks: seq<nat>): Place
    requires |blocks| <= MAX_DEPTH
  {
    Place(Encloses(blocks, false), exists i :: 0 <= i < |blocks| && blocks[i] == SWITCH,
          blocks != [] && blocks[|blocks| - 1] == SWITCH, MAX_DEPTH - |blocks|)
  }

  lemma PlaceInside(blocks: seq<nat>, b: nat)
    requires |blocks| < MAX_DEPTH
    ensures var p := PlaceOf(blocks);
            PlaceOf(blocks + [b]) ==
            Place(p.inLoop || b == LOOP, p.inSwitch || b == SWITCH, b == SWITCH, p.room - 1)
  {
    var inner := blocks + [b];
    assert inner[|blocks|] == b;
    assert forall i :: 0 <= i < |blocks| ==> inner[i] == blocks[i];
    assert Encloses(inner, false) == (Encloses(blocks, false) || b == LOOP);
    assert (exists i :: 0 <= i < |inner| && inner[i] == SWITCH)
        == ((exists i :: 0 <= i < |blocks| && blocks[i] == SWITCH) || b == SWITCH);
  }

  lemma PlaceGovernsJumps(blocks: seq<nat>)
    requires |blocks| <= MAX_DEPTH
    ensures Encloses(blocks, false) == PlaceOf(blocks).inLoop
    ensures Encloses(blocks, true) == (PlaceOf(blocks).inLoop || PlaceOf(blocks).inSwitch)
  {
    if i :| 0 <= i < |blocks| && blocks[i] == SWITCH {
      assert Encloses(blocks, true);
    }
    if Encloses(blocks, false) {
      var i :| 0 <= i < |blocks| && blocks[i] == LOOP;
      assert Encloses(blocks, true);
    }
  }

  /** A structured part runs through the checker and leaves the stack as it found it. */
  lemma {:induction false} StructuredPasses(c: Code, blocks: seq<nat>, rest: seq<nat>)
    requires |blocks| <= MAX_DEPTH && Structured(c, PlaceOf(blocks))
    ensures Checks(blocks, Emit(c, rest)) <==> Checks(blocks, rest)
    ensures Checks(blocks, rest) ==> Remaining(blocks, Emit(c, rest)) == Remaining(blocks, rest)
    decreases c, 0
  {
    match c
    case End =>
    case Plain(op, next) =>
      PlaceGovernsJumps(blocks);
      CheckFirst(blocks, op, Emit(next, rest));
      StructuredPasses(next, blocks, rest);
    case If(t, next) =>
      BlockPasses(IF, t, END_IF, blocks, Emit(next, rest));
      StructuredPasses(next, blocks, rest);
    case IfElse(t, e, next) =>
      var tail := [END_IF] + Emit(next, rest);
      CheckFirst(blocks, IF, Emit(t, [ELSE] + Emit(e, tail)));
      PlaceInside(blocks, IF);
      StructuredPasses(t, blocks + [IF], [ELSE] + Emit(e, tail));
      CheckFirst(blocks + [IF], ELSE, Emit(e, tail));
      assert Advance(blocks + [IF], ELSE) == blocks + [ELSE_SEEN];
      PlaceInside(blocks, ELSE_SEEN);
      StructuredPasses(e, blocks + [ELSE_SEEN], tail);
      CloseBlock(ELSE_SEEN, END_IF, blocks, Emit(next, rest));
      StructuredPasses(next, blocks, rest);
    case Loop(b, next) =>
      BlockPasses(LOOP, b, END_LOOP, blocks, Emit(next, rest));
      StructuredPasses(next, blocks, rest);
    case Switch(b, next) =>
      BlockPasses(SWITCH, b, END_SWITCH, blocks, Emit(next, rest));
      StructuredPasses(next, blocks, rest);
  }

  lemma CloseBlock(open: nat, close: nat, blocks: seq<nat>, rest: seq<nat>)
    requires Closes(close) && OpenerOf(close) == open % 256
    ensures Checks(blocks + [open], [close] + rest) <==> Checks(blocks, rest)
    ensures Checks(blocks, rest) ==>
              Remaining(blocks + [open], [close] + rest) == Remaining(blocks, rest)
  {
    CheckFirst(blocks + [open], close, rest);
    assert Advance(blocks + [open], close) == blocks;
  }

  /** One opened, filled and closed block. */
  lemma {:induction false} BlockPasses(open: nat, body: Code, close: nat, blocks: seq<nat>, rest: seq<nat>)
    requires Opens(open) && Closes(close) && OpenerOf(close) == open && |blocks| < MAX_DEPTH
    requires var p := PlaceOf(blocks);
             Structured(body, Place(p.inLoop || open == LOOP, p.inSwitch || open == SWITCH, open == SWITCH, p.room - 1))
    ensures Checks(blocks, [open] + Emit(body, [close] + rest)) <==> Checks(blocks, rest)
    ensures Checks(blocks, rest) ==>
              Remaining(blocks, [open] + Emit(body, [close] + rest)) == Remaining(blocks, rest)
    decreases body, 1
  {
    CheckFirst(blocks, open, Emit(body, [close] + rest));
    PlaceInside(blocks, open);
    StructuredPasses(body, blocks + [open], [close] + rest);
    CloseBlock(open, close, blocks, rest);
  }

  predicate Stops(rest: seq<nat>)
  {
    rest == [] || Closes(rest[0]) || rest[0] == ELSE
  }

  /**
    The longest structured prefix of a checked opcode sequence: what is left is
    empty or starts by closing, or splitting, the innermost open block.
  */
  lemma {:induction false} StructuredPrefix(blocks: seq<nat>, ops: seq<nat>) returns (c: Code, rest: seq<nat>)
    requires |blocks| <= MAX_DEPTH
    requires Checks(blocks, ops) && |Remaining(blocks, ops)| <= |blocks|
    ensures ops == Emit(c, rest) && |rest| <= |ops| && Structured(c, PlaceOf(blocks))
    ensures Stops(rest)
    ensures Checks(blocks, rest) && Remaining(blocks, rest) == Remaining(blocks, ops)
    decreases |ops|, 1
  {
    if ops == [] || Closes(ops[0]) || ops[0] == ELSE {
      c, rest := End, ops;
    } else {
      assert ops == [ops[0]] + ops[1..];
      if Opens(ops[0]) {
        c, rest := StructuredBlock(blocks, ops);
      } else {
        PlaceGovernsJumps(blocks);
        var c';
        c', rest := StructuredPrefix(blocks, ops[1..]);
        c := Plain(ops[0], c');
      }
    }
  }

  lemma OpenBlock(blocks: seq<nat>, open: nat, rest: seq<nat>)
    requires |blocks| <= MAX_DEPTH && Opens(open) && Checks(blocks, [open] + rest)
    ensures |blocks| < MAX_DEPTH && Checks(blocks + [open], rest)
    ensures Remaining(blocks + [open], rest) == Remaining(blocks, [open] + rest)
  {
    CheckFirst(blocks, open, rest);
  }

  lemma SplitBlock(blocks: seq<nat>, open: nat, rest: seq<nat>)
    requires Checks(blocks + [open], [ELSE] + rest)
    ensures open == IF && Checks(blocks + [ELSE_SEEN], rest)
    ensures Remaining(blocks + [ELSE_SEEN], rest) == Remaining(blocks + [open], [ELSE] + rest)
  {
    CheckFirst(blocks + [open], ELSE, rest);
    assert Advance(blocks + [open], ELSE) == blocks + [ELSE_SEEN];
  }

  /** A block that is still open, but not at the end, is closed or split next. */
  lemma StopsInside(blocks: seq<nat>, open: nat, tail: seq<nat>)
    requires Stops(tail) && Checks(blocks + [open], tail) && |Remaining(blocks + [open], tail)| <= |blocks|
    ensures tail != [] && tail == [tail[0]] + tail[1..]
    ensures if tail[0] == ELSE then open == IF else Closes(tail[0]) && OpenerOf(tail[0]) == open % 256
  {
  }

  lemma {:induction false} StructuredBlock(blocks: seq<nat>, ops: seq<nat>) returns (c: Code, rest: seq<nat>)
    requires |blocks| <= MAX_DEPTH && ops != [] && Opens(ops[0])
    requires Checks(blocks, ops) && |Remaining(blocks, ops)| <= |blocks|
    ensures ops == Emit(c, rest) && |rest| <= |ops| && Structured(c, PlaceOf(blocks))
    ensures Stops(rest)
    ensures Checks(blocks, rest) && Remaining(blocks, rest) == Remaining(blocks, ops)
    decreases |ops|, 0
  {
    var open := ops[0];
    assert ops == [open] + ops[1..];
    OpenBlock(blocks, open, ops[1..]);
    PlaceInside(blocks, open);
    var body, tail := StructuredPrefix(blocks + [open], ops[1..]);
    StopsInside(blocks, open, tail);
    if tail[0] == ELSE {
      var els, c';
      els, c', rest := StructuredElse(blocks, open, tail);
      c := BuildElse(body, els, c', rest, PlaceOf(blocks));
    } else {
      var c';
      c', rest := StructuredClose(blocks, open, tail);
      c := BuildBlock(open, body, tail[0], c', rest, PlaceOf(blocks));
    }
  }

  lemma BuildElse(body: Code, els: Code, next: Code, rest: seq<nat>, p: Place) returns (c: Code)
    requires p.room > 0 && Structured(body, InIf(p)) && Structured(els, InIf(p)) && Structured(next, p)
    ensures Structured(c, p) && Emit(c, rest) == [IF] + Emit(body, [ELSE] + Emit(els, [END_IF] + Emit(next, rest)))
  {
    c := IfElse(body, els, next);
  }

  lemma BuildBlock(open: nat, body: Code, close: nat, next: Code, rest: seq<nat>, p: Place) returns (c: Code)
    requires Opens(open) && Closes(close) && OpenerOf(close) == open && p.room > 0
    requires Structured(next, p)
    requires Structured(body, Place(p.inLoop || open == LOOP, p.inSwitch || open == SWITCH, open == SWITCH, p.room - 1))
    ensures Structured(c, p) && Emit(c, rest) == [open] + Emit(body, [close] + Emit(next, rest))
  {
    c := if open == IF then If(body, next) else if open == LOOP then Loop(body, next) else Switch(body, next);
  }

  lemma {:induction false} StructuredClose(blocks: seq<nat>, open: nat, ops: seq<nat>) returns (next: Code, rest: seq<nat>)
    requires |blocks| < MAX_DEPTH && Opens(open) && ops != [] && Closes(ops[0])
    requires Checks(blocks + [open], ops) && |Remaining(blocks + [open], ops)| <= |blocks|
    ensures OpenerOf(ops[0]) == open && ops == [ops[0]] + Emit(next, rest) && |rest| <= |ops|
    ensures Structured(next, PlaceOf(blocks)) && Stops(rest)
    ensures Checks(blocks, rest) && Remaining(blocks, rest) == Remaining(blocks + [open], ops)
    decreases |ops|, 0
  {
    assert ops == [ops[0]] + ops[1..];
    CloseBlock(open, ops[0], blocks, ops[1..]);
    next, rest := StructuredPrefix(blocks, ops[1..]);
  }

  lemma {:induction false} StructuredElse(blocks: seq<nat>, open: nat, ops: seq<nat>)
    returns (els: Code, next: Code, rest: seq<nat>)
    requires |blocks| < MAX_DEPTH && ops != [] && ops[0] == ELSE
    requires Checks(blocks + [open], ops) && |Remaining(blocks + [open], ops)| <= |blocks|
    ensures open == IF && ops == [ELSE] + Emit(els, [END_IF] + Emit(next, rest)) && |rest| <= |ops|
    ensures Structured(els, InIf(PlaceOf(blocks))) && Structured(next, PlaceOf(blocks))
    ensures Stops(rest)
    ensures Checks(blocks, rest) && Remaining(blocks, rest) == Remaining(blocks + [open], ops)
    decreases |ops|, 0
  {
    assert ops == [ELSE] + ops[1..];
    SplitBlock(blocks, open, ops[1..]);
    PlaceInside(blocks, ELSE_SEEN);
    var tail;
    els, tail := StructuredPrefix(blocks + [ELSE_SEEN], ops[1..]);
    StopsInside(blocks, ELSE_SEEN, tail);
    CloseBlock(ELSE_SEEN, END_IF, blocks, tail[1..]);
    next, rest := StructuredPrefix(blocks, tail[1..]);
  }

  /** Accepted by the stack checker from nothing open to nothing open. */
  predicate Balanced(ops: seq<nat>)
  {
    Checks([], ops) && Remaining([], ops) == []
  }

  /** The checker accepts exactly the opcode sequences of structured programs. */
  lemma {:induction false} BalancedIffStructured(ops: seq<nat>)
    ensures Balanced(ops) <==> exists c :: Structured(c, TOP) && Emit(c, []) == ops
  {
    assert PlaceOf([]) == TOP;
    if Balanced(ops) {
      var c, rest := StructuredPrefix([], ops);
      assert rest == [];
    }
    if c :| Structured(c, TOP) && Emit(c, []) == ops {
      StructuredPasses(c, [], []);
    }
  }

  lemma SameRest(op: nat, a: seq<nat>, op': nat, b: seq<nat>)
    requires [op] + a == [op'] + b
    ensures op == op' && a == b
  {
    assert ([op] + a)[0] == ([op'] + b)[0];
    assert ([op] + a)[1..] == a && ([op'] + b)[1..] == b;
  }

  lemma FirstOp(c: Code, rest: seq<nat>)
    requires c != End
    ensures Emit(c, rest) != [] && Emit(c, rest)[0] == Head(c)
  {
  }

  function Head(c: Code): nat
    requires c != End
  {
    match c
    case Plain(op, _) => op
    case If(_, _) => IF
    case IfElse(_, _, _) => IF
    case Loop(_, _) => LOOP
    case Switch(_, _) => SWITCH
  }

  /** The grammar is unambiguous: opcodes determine the structured program. */
  lemma {:induction false} EmitInjective(c: Code, d: Code, p: Place, q: Place, x: seq<nat>, y: seq<nat>)
    requires Structured(c, p) && Structured(d, q) && Stops(x) && Stops(y)
    requires Emit(c, x) == Emit(d, y)
    ensures c == d && x == y
    decreases c
  {
    if c != End { FirstOp(c, x); }
    if d != End { FirstOp(d, y); }
    match c
    case End =>
    case Plain(op, next) =>
      SameRest(op, Emit(next, x), d.op, Emit(d.next, y));
      EmitInjective(next, d.next, p, q, x, y);
    case Loop(b, next) =>
      var u, v := [END_LOOP] + Emit(next, x), [END_LOOP] + Emit(d.next, y);
      SameRest(LOOP, Emit(b, u), LOOP, Emit(d.body, v));
      EmitInjective(b, d.body, InLoop(p), InLoop(q), u, v);
      SameRest(END_LOOP, Emit(next, x), END_LOOP, Emit(d.next, y));
      EmitInjective(next, d.next, p, q, x, y);
    case Switch(b, next) =>
      var u, v := [END_SWITCH] + Emit(next, x), [END_SWITCH] + Emit(d.next, y);
      SameRest(SWITCH, Emit(b, u), SWITCH, Emit(d.body, v));
      EmitInjective(b, d.body, InSwitch(p), InSwitch(q), u, v);
      SameRest(END_SWITCH, Emit(next, x), END_SWITCH, Emit(d.next, y));
      EmitInjective(next, d.next, p, q, x, y);
    case If(t, next) =>
      var u, v := AfterThen(c, x), AfterThen(d, y);
      SameRest(IF, Emit(t, u), IF, Emit(d.thn, v));
      EmitInjective(t, d.thn, InIf(p), InIf(q), u, v);
      SameRest(END_IF, Emit(next, x), END_IF, Emit(d.next, y));
      EmitInjective(next, d.next, p, q, x, y);
    case IfElse(t, e, next) =>
      var u, v := AfterThen(c, x), AfterThen(d, y);
      SameRest(IF, Emit(t, u), IF, Emit(d.thn, v));
      EmitInjective(t, d.thn, InIf(p), InIf(q), u, v);
      var u', v' := [END_IF] + Emit(next, x), [END_IF] + Emit(d.next, y);
      SameRest(ELSE, Emit(e, u'), ELSE, Emit(d.els, v'));
      EmitInjective(e, d.els, InIf(p), InIf(q), u', v');
      SameRest(END_IF, Emit(next, x), END_IF, Emit(d.next, y));
      EmitInjective(next, d.next, p, q, x, y);
  }

  function AfterThen(c: Code, rest: seq<nat>): seq<nat>
    requires c.If? || c.IfElse?
  {
    if c.If? then [END_IF] + Emit(c.next, rest) else [ELSE] + Emit(c.els, [END_IF] + Emit(c.next, rest))
  }
}
