/**
  Items laid end to end: where each one starts, and what it takes for two layouts
  of the same stretch to be equal.  The acceptance test of an item is a parameter
  that sees the item, its number and its offset.
*/
module Layout {

  function OffsetOf<T>(size: T -> nat, xs: seq<T>, k: nat): nat
    requires k <= |xs|
  {
    if k == 0 then 0 else OffsetOf(size, xs, k - 1) + size(xs[k - 1])
  }

  function Extent<T>(size: T -> nat, xs: seq<T>): nat { OffsetOf(size, xs, |xs|) }

  ghost predicate Laid<T>(size: T -> nat, fits: (T, nat, nat) -> bool, xs: seq<T>)
  {
    forall k: nat {:trigger fits(xs[k], k, OffsetOf(size, xs, k))} :: 0 <= k < |xs| ==>
      fits(xs[k], k, OffsetOf(size, xs, k))
  }

  /** No two items are acceptable in one place. */
  ghost predicate Decides<T(!new)>(fits: (T, nat, nat) -> bool)
  {
    forall x, y, k: nat, offset: nat :: fits(x, k, offset) && fits(y, k, offset) ==> x == y
  }

  /** Offsets depend only on the items before them. */
  lemma {:induction false} SameOffset<T>(size: T -> nat, xs: seq<T>, ys: seq<T>, k: nat)
    requires k <= |xs| && k <= |ys| && forall j :: 0 <= j < k ==> xs[j] == ys[j]
    ensures OffsetOf(size, xs, k) == OffsetOf(size, ys, k)
  {
    if k > 0 { SameOffset(size, xs, ys, k - 1); }
  }

  lemma {:induction false} OffsetsGrow<T>(size: T -> nat, xs: seq<T>, j: nat, k: nat)
    requires j < k <= |xs|
    ensures OffsetOf(size, xs, j) + size(xs[j]) <= OffsetOf(size, xs, k)
    decreases k
  {
    if j < k - 1 { OffsetsGrow(size, xs, j, k - 1); }
  }

  lemma InPlace<T>(size: T -> nat, fits: (T, nat, nat) -> bool, xs: seq<T>, k: nat)
    requires Laid(size, fits, xs) && k < |xs|
    ensures fits(xs[k], k, OffsetOf(size, xs, k))
    ensures OffsetOf(size, xs, k) + size(xs[k]) <= Extent(size, xs)
  {
    OffsetsGrow(size, xs, k, |xs|);
    assert 0 <= k < |xs| ==> fits(xs[k], k, OffsetOf(size, xs, k));
  }

  lemma Append<T>(size: T -> nat, fits: (T, nat, nat) -> bool, xs: seq<T>, x: T)
    ensures Extent(size, xs + [x]) == Extent(size, xs) + size(x)
    ensures Laid(size, fits, xs) && fits(x, |xs|, Extent(size, xs)) ==> Laid(size, fits, xs + [x])
  {
    var ys := xs + [x];
    SameOffset(size, xs, ys, |xs|);
    if Laid(size, fits, xs) && fits(x, |xs|, Extent(size, xs)) {
      forall k: nat | k < |ys| ensures fits(ys[k], k, OffsetOf(size, ys, k)) {
        SameOffset(size, xs, ys, if k < |xs| then k else |xs|);
        assert k < |xs| ==> fits(xs[k], k, OffsetOf(size, xs, k));
      }
    }
  }

  /** Two layouts from one place agree as far as both go. */
  lemma {:induction false} Agree<T(!new)>(size: T -> nat, fits: (T, nat, nat) -> bool, xs: seq<T>, ys: seq<T>, n: nat)
    requires Laid(size, fits, xs) && Laid(size, fits, ys) && Decides(fits)
    requires n <= |xs| && n <= |ys|
    ensures OffsetOf(size, xs, n) == OffsetOf(size, ys, n)
    ensures forall k :: 0 <= k < n ==> xs[k] == ys[k]
  {
    if n > 0 {
      var k := n - 1;
      Agree(size, fits, xs, ys, k);
      assert 0 <= k < |xs| ==> fits(xs[k], k, OffsetOf(size, xs, k));
      assert 0 <= k < |ys| ==> fits(ys[k], k, OffsetOf(size, ys, k));
    }
  }

  /** Items that pass two tests and stay within a limit pass any test these imply. */
  lemma Combine<T(!new)>(
    size: T -> nat, f: (T, nat, nat) -> bool, g: (T, nat, nat) -> bool, h: (T, nat, nat) -> bool,
    xs: seq<T>, limit: nat)
    requires Laid(size, f, xs) && Laid(size, g, xs) && Extent(size, xs) <= limit
    requires forall x, k: nat, offset: nat :: f(x, k, offset) && g(x, k, offset) && offset + size(x) <= limit ==> h(x, k, offset)
    ensures Laid(size, h, xs)
  {
    forall k: nat | k < |xs| ensures h(xs[k], k, OffsetOf(size, xs, k)) {
      InPlace(size, f, xs, k);
      InPlace(size, g, xs, k);
    }
  }

  /** Weaker tests are passed too. */
  lemma Weaken<T(!new)>(size: T -> nat, f: (T, nat, nat) -> bool, g: (T, nat, nat) -> bool, xs: seq<T>)
    requires Laid(size, f, xs)
    requires forall x, k: nat, offset: nat :: f(x, k, offset) ==> g(x, k, offset)
    ensures Laid(size, g, xs)
  {
    forall k: nat | k < |xs| ensures g(xs[k], k, OffsetOf(size, xs, k)) {
      InPlace(size, f, xs, k);
    }
  }

  // --- Items whose acceptance depends on what the earlier ones left behind ---

  function StateOf<S, T>(step: (S, T) -> S, start: S, xs: seq<T>, k: nat): S
    requires k <= |xs|
  {
    if k == 0 then start else step(StateOf(step, start, xs, k - 1), xs[k - 1])
  }

  ghost predicate Threaded<S, T>(
    size: T -> nat, step: (S, T) -> S, fits: (S, T, nat) -> bool, start: S, xs: seq<T>)
  {
    forall k: nat {:trigger fits(StateOf(step, start, xs, k), xs[k], OffsetOf(size, xs, k))} :: k < |xs| ==>
      fits(StateOf(step, start, xs, k), xs[k], OffsetOf(size, xs, k))
  }

  ghost predicate FitsAt<S, T>(size: T -> nat, step: (S, T) -> S, fits: (S, T, nat) -> bool, start: S, xs: seq<T>, k: nat)
    requires k < |xs|
  {
    fits(StateOf(step, start, xs, k), xs[k], OffsetOf(size, xs, k))
  }

  lemma Thread<S, T>(size: T -> nat, step: (S, T) -> S, fits: (S, T, nat) -> bool, start: S, xs: seq<T>)
    requires forall k: nat :: k < |xs| ==> FitsAt(size, step, fits, start, xs, k)
    ensures Threaded(size, step, fits, start, xs)
  {
    forall k: nat | k < |xs| ensures fits(StateOf(step, start, xs, k), xs[k], OffsetOf(size, xs, k)) {
      assert FitsAt(size, step, fits, start, xs, k);
    }
  }

  /** In one state, no two items are acceptable in one place. */
  ghost predicate Determines<S(!new), T(!new)>(fits: (S, T, nat) -> bool)
  {
    forall s, x, y, offset: nat :: fits(s, x, offset) && fits(s, y, offset) ==> x == y
  }

  lemma {:induction false} SameState<S, T>(step: (S, T) -> S, start: S, xs: seq<T>, ys: seq<T>, k: nat)
    requires k <= |xs| && k <= |ys| && forall j :: 0 <= j < k ==> xs[j] == ys[j]
    ensures StateOf(step, start, xs, k) == StateOf(step, start, ys, k)
  {
    if k > 0 { SameState(step, start, xs, ys, k - 1); }
  }

  lemma ThreadAt<S, T>(size: T -> nat, step: (S, T) -> S, fits: (S, T, nat) -> bool, start: S, xs: seq<T>, k: nat)
    requires Threaded(size, step, fits, start, xs) && k < |xs|
    ensures fits(StateOf(step, start, xs, k), xs[k], OffsetOf(size, xs, k))
  {
    assert k < |xs| ==> fits(StateOf(step, start, xs, k), xs[k], OffsetOf(size, xs, k));
  }

  lemma ThreadAppend<S, T>(
    size: T -> nat, step: (S, T) -> S, fits: (S, T, nat) -> bool, start: S, xs: seq<T>, x: T)
    requires Threaded(size, step, fits, start, xs)
    requires fits(StateOf(step, start, xs, |xs|), x, Extent(size, xs))
    ensures Threaded(size, step, fits, start, xs + [x])
    ensures StateOf(step, start, xs + [x], |xs| + 1) == step(StateOf(step, start, xs, |xs|), x)
    ensures Extent(size, xs + [x]) == Extent(size, xs) + size(x)
  {
    var ys := xs + [x];
    SameState(step, start, xs, ys, |xs|);
    SameOffset(size, xs, ys, |xs|);
    forall k: nat | k < |ys| ensures fits(StateOf(step, start, ys, k), ys[k], OffsetOf(size, ys, k)) {
      var j := if k < |xs| then k else |xs|;
      SameState(step, start, xs, ys, j);
      SameOffset(size, xs, ys, j);
      if k < |xs| { ThreadAt(size, step, fits, start, xs, k); }
    }
  }

  /** Two threads of items from one start agree as far as both go. */
  lemma {:induction false} ThreadAgree<S(!new), T(!new)>(
    size: T -> nat, step: (S, T) -> S, fits: (S, T, nat) -> bool, start: S, xs: seq<T>, ys: seq<T>, n: nat)
    requires Threaded(size, step, fits, start, xs) && Threaded(size, step, fits, start, ys) && Determines(fits)
    requires n <= |xs| && n <= |ys|
    ensures forall k :: 0 <= k < n ==> xs[k] == ys[k]
    ensures OffsetOf(size, xs, n) == OffsetOf(size, ys, n)
    ensures StateOf(step, start, xs, n) == StateOf(step, start, ys, n)
  {
    if n > 0 {
      var k := n - 1;
      ThreadAgree(size, step, fits, start, xs, ys, k);
      ThreadAt(size, step, fits, start, xs, k);
      ThreadAt(size, step, fits, start, ys, k);
    }
  }

  /** A thread that fills the stretch extends every other thread over it. */
  lemma ThreadExtends<S(!new), T(!new)>(
    size: T -> nat, step: (S, T) -> S, fits: (S, T, nat) -> bool, start: S, xs: seq<T>, ys: seq<T>)
    requires Threaded(size, step, fits, start, xs) && Threaded(size, step, fits, start, ys) && Determines(fits)
    requires (forall x :: size(x) > 0) && Extent(size, xs) <= Extent(size, ys)
    ensures |xs| <= |ys| && ys[..|xs|] == xs
    ensures Extent(size, xs) < Extent(size, ys) ==> |xs| < |ys|
    ensures Extent(size, xs) == Extent(size, ys) ==> xs == ys
  {
    var n := if |ys| <= |xs| then |ys| else |xs|;
    ThreadAgree(size, step, fits, start, xs, ys, n);
    if n < |xs| { OffsetsGrow(size, xs, n, |xs|); }
    if n < |ys| { OffsetsGrow(size, ys, n, |ys|); }
  }
}
