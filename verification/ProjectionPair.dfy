/**
  Validation of a projection and its inverse (src/rr_projection_validation.h),
  with the matrices' doubles read as reals.
*/
module ProjectionPair {

  datatype Double = NotFinite | Finite(value: real)

  // (2 - 2^-23) * 2^127, the largest single-precision value.
  const MAX_FLOAT := 340282346638528859811704183484516925440.0

  const TOLERANCE := 0.001

  function Abs(x: real): real { if x < 0.0 then -x else x }

  predicate AllFinite(m: seq<Double>)
  {
    |m| == 16 && forall i :: 0 <= i < 16 ==> m[i].Finite?
  }

  function At(m: seq<Double>, row: nat, col: nat): real
    requires AllFinite(m) && row < 4 && col < 4
  {
    m[row * 4 + col].value
  }

  /** The first `k` terms of an entry of the product. */
  function Sum(a: seq<Double>, b: seq<Double>, row: nat, col: nat, k: nat): real
    requires AllFinite(a) && AllFinite(b) && row < 4 && col < 4 && k <= 4
  {
    if k == 0 then 0.0 else Sum(a, b, row, col, k - 1) + At(a, row, k - 1) * At(b, k - 1, col)
  }

  function Entry(a: seq<Double>, b: seq<Double>, row: nat, col: nat): real
    requires AllFinite(a) && AllFinite(b) && row < 4 && col < 4
  {
    Sum(a, b, row, col, 4)
  }

  /** Entry `(row, col)` of both products is within the tolerance of the identity. */
  predicate EntryOk(p: seq<Double>, q: seq<Double>, row: nat, col: nat)
    requires AllFinite(p) && AllFinite(q) && row < 4 && col < 4
  {
    var expected := if row == col then 1.0 else 0.0;
    Abs(Entry(p, q, row, col) - expected) <= TOLERANCE && Abs(Entry(q, p, row, col) - expected) <= TOLERANCE
  }

  predicate Accepted(p: seq<Double>, q: seq<Double>)
  {
    && AllFinite(p) && AllFinite(q)
    && (forall i :: 0 <= i < 16 ==> Abs(p[i].value) <= MAX_FLOAT)
    && (forall row, col :: 0 <= row < 4 && 0 <= col < 4 ==> EntryOk(p, q, row, col))
  }

  /** The sums of one entry, accumulated term by term. */
  method Accumulate(p: array<Double>, q: array<Double>, row: nat, col: nat) returns (forward: real, backward: real)
    requires AllFinite(p[..]) && AllFinite(q[..]) && row < 4 && col < 4
    ensures forward == Entry(p[..], q[..], row, col) && backward == Entry(q[..], p[..], row, col)
  {
    forward, backward := 0.0, 0.0;
    var k := 0;
    while k < 4
      invariant 0 <= k <= 4
      invariant forward == Sum(p[..], q[..], row, col, k) && backward == Sum(q[..], p[..], row, col, k)
    {
      forward := forward + p[row * 4 + k].value * q[k * 4 + col].value;
      backward := backward + q[row * 4 + k].value * p[k * 4 + col].value;
      k := k + 1;
    }
  }

  /** `narrow` is the conversion to single precision. */
  method CopyValidatedProjection(
    projection: array?<Double>, inverse: array?<Double>, output: array?<real>, narrow: real -> real) returns (ok: bool)
    requires projection != null ==> projection.Length == 16
    requires inverse != null ==> inverse.Length == 16
    requires output != null ==> output.Length == 16
    modifies if output == null then {} else {output}
    ensures ok <==> projection != null && inverse != null && output != null && Accepted(projection[..], inverse[..])
    ensures ok ==> forall i :: 0 <= i < 16 ==> output[i] == narrow(projection[i].value)
    ensures !ok && output != null ==> output[..] == old(output[..])
  {
    if projection == null || inverse == null || output == null { return false; }
    var i := 0;
    while i < 16
      invariant 0 <= i <= 16 && output[..] == old(output[..])
      invariant forall k :: 0 <= k < i ==>
                  projection[k].Finite? && inverse[k].Finite? && Abs(projection[k].value) <= MAX_FLOAT
    {
      if projection[i].NotFinite? || inverse[i].NotFinite? || Abs(projection[i].value) > MAX_FLOAT {
        assert projection[..][i] == projection[i] && inverse[..][i] == inverse[i];
        return false;
      }
      i := i + 1;
    }
    assert AllFinite(projection[..]) && AllFinite(inverse[..]);
    var row: nat := 0;
    while row < 4
      invariant row <= 4 && output[..] == old(output[..])
      invariant forall r, c :: 0 <= r < row && 0 <= c < 4 ==> EntryOk(projection[..], inverse[..], r, c)
    {
      var col: nat := 0;
      while col < 4
        invariant col <= 4 && output[..] == old(output[..])
        invariant forall c :: 0 <= c < col ==> EntryOk(projection[..], inverse[..], row, c)
      {
        var forward, backward := Accumulate(projection, inverse, row, col);
        var expected := if row == col then 1.0 else 0.0;
        if Abs(forward - expected) > TOLERANCE || Abs(backward - expected) > TOLERANCE {
          assert !EntryOk(projection[..], inverse[..], row, col);
          return false;
        }
        col := col + 1;
      }
      row := row + 1;
    }
    i := 0;
    while i < 16
      invariant 0 <= i <= 16
      invariant forall k :: 0 <= k < i ==> output[k] == narrow(projection[k].value)
    {
      output[i] := narrow(projection[i].value);
      i := i + 1;
    }
    return true;
  }

  // --- What acceptance means for vectors ---

  type Vector = v: seq<real> | |v| == 4 witness [0.0, 0.0, 0.0, 0.0]

  /** One term of the product of a row and a vector. */
  function Term(x: Vector, v: Vector, i: nat): real { if i < 4 then x[i] * v[i] else 0.0 }

  function Terms(x: Vector, v: Vector): (t: nat -> real)
    ensures forall i: nat {:trigger t(i)} {:trigger Term(x, v, i)} :: t(i) == Term(x, v, i)
  {
    (i: nat) => Term(x, v, i)
  }

  function Total(t: nat -> real, k: nat): real { if k == 0 then 0.0 else Total(t, k - 1) + t(k - 1) }

  /** The first `k` terms of the product of a row and a vector. */
  function Dot(x: Vector, v: Vector, k: nat): real { Total(Terms(x, v), k) }

  function Row(m: seq<Double>, row: nat): Vector
    requires AllFinite(m) && row < 4
  {
    seq(4, i requires 0 <= i < 4 => At(m, row, i))
  }

  function RowDot(m: seq<Double>, row: nat, v: Vector): real
    requires AllFinite(m) && row < 4
  {
    Dot(Row(m, row), v, 4)
  }

  function Apply(m: seq<Double>, v: Vector): Vector
    requires AllFinite(m)
  {
    seq(4, i requires 0 <= i < 4 => RowDot(m, i, v))
  }

  /** No component exceeds `m` in absolute value. */
  predicate Within(v: Vector, m: real)
  {
    forall i :: 0 <= i < 4 ==> Abs(v[i]) <= m
  }

  /** `s` and `q` times `b`. */
  function Plus(s: Vector, q: real, b: Vector): Vector
  {
    seq(4, i requires 0 <= i < 4 => s[i] + q * b[i])
  }

  lemma {:induction false} TotalAdds(t: nat -> real, u: nat -> real, w: nat -> real, k: nat)
    requires forall i: nat :: i < k ==> t(i) == u(i) + w(i)
    ensures Total(t, k) == Total(u, k) + Total(w, k)
  {
    if k > 0 { TotalAdds(t, u, w, k - 1); }
  }

  lemma {:induction false} TotalScales(u: nat -> real, w: nat -> real, q: real, k: nat)
    requires forall i: nat :: i < k ==> w(i) == q * u(i)
    ensures Total(w, k) == q * Total(u, k)
  {
    if k > 0 {
      TotalScales(u, w, q, k - 1);
      Scaled(q, Total(u, k - 1), u(k - 1));
    }
  }

  lemma Scaled(q: real, x: real, y: real)
    ensures q * (x + y) == q * x + q * y
  {
  }

  lemma PlusTerm(s: real, q: real, b: real, x: real)
    ensures (s + q * b) * x == s * x + q * (b * x)
  {
    assert (s + q * b) * x == s * x + (q * b) * x;
  }

  function ScaledTerms(q: real, b: Vector, v: Vector): (t: nat -> real)
    ensures forall i: nat {:trigger t(i)} :: t(i) == q * Terms(b, v)(i)
  {
    (i: nat) => q * Terms(b, v)(i)
  }

  lemma PlusAt(s: Vector, q: real, b: Vector, v: Vector, i: nat)
    requires i < 4
    ensures Terms(Plus(s, q, b), v)(i) == Terms(s, v)(i) + ScaledTerms(q, b, v)(i)
  {
    PlusTerm(s[i], q, b[i], v[i]);
  }

  lemma PlusTotals(t: nat -> real, u: nat -> real, w: nat -> real, z: nat -> real, q: real)
    requires forall i: nat :: i < 4 ==> t(i) == u(i) + w(i)
    requires forall i: nat :: i < 4 ==> w(i) == q * z(i)
    ensures Total(t, 4) == Total(u, 4) + q * Total(z, 4)
  {
    TotalAdds(t, u, w, 4);
    TotalScales(z, w, q, 4);
  }

  lemma DotPlus(s: Vector, q: real, b: Vector, v: Vector)
    ensures Dot(Plus(s, q, b), v, 4) == Dot(s, v, 4) + q * Dot(b, v, 4)
  {
    var t, u, w, z := Terms(Plus(s, q, b), v), Terms(s, v), ScaledTerms(q, b, v), Terms(b, v);
    forall i: nat | i < 4 ensures t(i) == u(i) + w(i) {
      PlusAt(s, q, b, v, i);
    }
    PlusTotals(t, u, w, z, q);
  }

  lemma {:induction false} TotalZero(t: nat -> real, k: nat)
    requires forall i: nat :: i < k ==> t(i) == 0.0
    ensures Total(t, k) == 0.0
  {
    if k > 0 { TotalZero(t, k - 1); }
  }

  lemma DotZero(x: Vector, v: Vector)
    requires x == ORIGIN || v == ORIGIN
    ensures Dot(x, v, 4) == 0.0
  {
    forall i: nat | i < 4 ensures Terms(x, v)(i) == 0.0 {
      assert Term(x, v, i) == 0.0;
    }
    TotalZero(Terms(x, v), 4);
  }

  lemma DotStep(x: Vector, v: Vector, k: nat)
    requires k < 4
    ensures Dot(x, v, k + 1) == Dot(x, v, k) + x[k] * v[k]
  {
    assert Terms(x, v)(k) == Term(x, v, k);
  }

  /** The first `k` terms of the entries of a row of the product. */
  function Sums(a: seq<Double>, b: seq<Double>, row: nat, k: nat): Vector
    requires AllFinite(a) && AllFinite(b) && row < 4 && k <= 4
  {
    if k == 0 then ORIGIN else Plus(Sums(a, b, row, k - 1), At(a, row, k - 1), Row(b, k - 1))
  }

  lemma {:induction false} SumsAre(a: seq<Double>, b: seq<Double>, row: nat, k: nat, col: nat)
    requires AllFinite(a) && AllFinite(b) && row < 4 && k <= 4 && col < 4
    ensures Sums(a, b, row, k)[col] == Sum(a, b, row, col, k)
  {
    if k > 0 {
      SumsAre(a, b, row, k - 1, col);
      PlusIs(Sums(a, b, row, k - 1), At(a, row, k - 1), Row(b, k - 1), col);
    }
  }

  lemma PlusIs(s: Vector, q: real, b: Vector, col: nat)
    requires col < 4
    ensures Plus(s, q, b)[col] == s[col] + q * b[col]
  {
  }

  /** One more term of each entry of the product, applied to `v`. */
  lemma SumsStep(a: seq<Double>, b: seq<Double>, v: Vector, row: nat, k: nat)
    requires AllFinite(a) && AllFinite(b) && row < 4 && k < 4
    ensures Dot(Sums(a, b, row, k + 1), v, 4) == Dot(Sums(a, b, row, k), v, 4) + At(a, row, k) * RowDot(b, k, v)
  {
    DotPlus(Sums(a, b, row, k), At(a, row, k), Row(b, k), v);
  }

  /** `g` grows as the product of `x` and `w` does. */
  predicate Grows(g: nat -> real, x: Vector, w: Vector, i: nat)
    requires i < 4
  {
    g(i + 1) == g(i) + x[i] * w[i]
  }

  lemma {:induction false} GrowsToDot(g: nat -> real, x: Vector, w: Vector, k: nat)
    requires k <= 4 && g(0) == 0.0 && forall i: nat :: i < k ==> Grows(g, x, w, i)
    ensures g(k) == Dot(x, w, k)
  {
    if k > 0 {
      GrowsToDot(g, x, w, k - 1);
      assert Grows(g, x, w, k - 1);
      DotStep(x, w, k - 1);
    }
  }

  /** What the entries of the product, up to their `k`-th terms, make of `v`. */
  function Applied(a: seq<Double>, b: seq<Double>, v: Vector, row: nat): (g: nat -> real)
    requires AllFinite(a) && AllFinite(b) && row < 4
    ensures forall k: nat {:trigger g(k)} :: k <= 4 ==> g(k) == Dot(Sums(a, b, row, k), v, 4)
  {
    (k: nat) => if k <= 4 then Dot(Sums(a, b, row, k), v, 4) else 0.0
  }

  lemma AppliedGrows(a: seq<Double>, b: seq<Double>, v: Vector, row: nat, x: Vector, w: Vector, k: nat)
    requires AllFinite(a) && AllFinite(b) && row < 4 && k < 4 && x[k] == At(a, row, k) && w[k] == RowDot(b, k, v)
    ensures Grows(Applied(a, b, v, row), x, w, k)
  {
    SumsStep(a, b, v, row, k);
  }

  /** Applying one matrix after the other is applying their product. */
  lemma AppliedIsProduct(a: seq<Double>, b: seq<Double>, v: Vector, row: nat)
    requires AllFinite(a) && AllFinite(b) && row < 4
    ensures RowDot(a, row, Apply(b, v)) == Dot(EntryRow(a, b, row), v, 4)
  {
    var g, x, w := Applied(a, b, v, row), Row(a, row), Apply(b, v);
    DotZero(Sums(a, b, row, 0), v);
    forall i: nat | i < 4 ensures Grows(g, x, w, i) {
      AppliedGrows(a, b, v, row, x, w, i);
    }
    GrowsToDot(g, x, w, 4);
  }

  /** The tolerance of one entry, for vectors whose components do not exceed `m`. */
  function Slack(m: real): real { 0.001 * m }

  lemma ProductBound(e: real, x: real, m: real)
    requires Abs(e) <= TOLERANCE && Abs(x) <= m
    ensures Abs(e * x) <= Slack(m)
  {
    var a, b := Abs(e), Abs(x);
    assert Abs(e * x) == a * b;
    assert a * b <= 0.001 * b;
  }

  predicate Close(t: real, x: real, diagonal: bool, bound: real)
  {
    Abs(t - if diagonal then x else 0.0) <= bound
  }

  lemma TermError(e: real, diagonal: bool, x: real, m: real)
    requires Close(e, 1.0, diagonal, TOLERANCE) && Abs(x) <= m
    ensures Close(e * x, x, diagonal, Slack(m))
  {
    var d := if diagonal then e - 1.0 else e;
    ProductBound(d, x, m);
    assert d * x == if diagonal then e * x - x else e * x;
  }

  /** Projecting and unprojecting, in either order, moves no component by more than 0.4% of the largest. */
  lemma RoundTripError(p: seq<Double>, q: seq<Double>, v: Vector, m: real, row: nat)
    requires Accepted(p, q) && Within(v, m) && row < 4
    ensures Abs(RowDot(q, row, Apply(p, v)) - v[row]) <= 4.0 * Slack(m)
    ensures Abs(RowDot(p, row, Apply(q, v)) - v[row]) <= 4.0 * Slack(m)
  {
    forall col: nat | col < 4
      ensures Close(EntryRow(p, q, row)[col], 1.0, row == col, TOLERANCE)
      ensures Close(EntryRow(q, p, row)[col], 1.0, row == col, TOLERANCE)
    {
      assert EntryOk(p, q, row, col);
      SumsAre(p, q, row, 4, col);
      SumsAre(q, p, row, 4, col);
    }
    OneWayError(q, p, v, m, row);
    OneWayError(p, q, v, m, row);
  }

  function EntryRow(a: seq<Double>, b: seq<Double>, row: nat): Vector
    requires AllFinite(a) && AllFinite(b) && row < 4
  {
    Sums(a, b, row, 4)
  }

  /** The row `e` is that of the identity, up to the tolerance. */
  predicate NearIdentity(e: Vector, row: nat)
  {
    forall col :: 0 <= col < 4 ==> Close(e[col], 1.0, row == col, TOLERANCE)
  }

  lemma FourTerms(term: nat -> real, v: Vector, row: nat, bound: real)
    requires row < 4 && forall k: nat :: k < 4 ==> Close(term(k), v[k], row == k, bound)
    ensures Close(Total(term, 4), v[row], true, 4.0 * bound)
  {
    assert Close(term(0), v[0], row == 0, bound) && Close(term(1), v[1], row == 1, bound);
    assert Close(term(2), v[2], row == 2, bound) && Close(term(3), v[3], row == 3, bound);
    assert Total(term, 2) == 0.0 + term(0) + term(1);
    assert Total(term, 4) == Total(term, 2) + term(2) + term(3);
  }

  lemma TermAt(e: Vector, v: Vector, m: real, row: nat, k: nat)
    requires Within(v, m) && NearIdentity(e, row) && row < 4 && k < 4
    ensures Close(Term(e, v, k), v[k], row == k, Slack(m))
  {
    assert Close(e[k], 1.0, row == k, TOLERANCE);
    TermError(e[k], row == k, v[k], m);
  }

  lemma RowError(e: Vector, v: Vector, m: real, row: nat)
    requires Within(v, m) && NearIdentity(e, row) && row < 4
    ensures Close(Dot(e, v, 4), v[row], true, 4.0 * Slack(m))
  {
    var terms := Terms(e, v);
    forall k: nat | k < 4 ensures Close(terms(k), v[k], row == k, Slack(m)) {
      TermAt(e, v, m, row, k);
    }
    FourTerms(terms, v, row, Slack(m));
  }

  lemma OneWayError(a: seq<Double>, b: seq<Double>, v: Vector, m: real, row: nat)
    requires AllFinite(a) && AllFinite(b) && Within(v, m) && row < 4
    requires NearIdentity(EntryRow(a, b, row), row)
    ensures Close(RowDot(a, row, Apply(b, v)), v[row], true, 4.0 * Slack(m))
  {
    RowError(EntryRow(a, b, row), v, m, row);
    AppliedIsProduct(a, b, v, row);
  }

  const ORIGIN: Vector := [0.0, 0.0, 0.0, 0.0]

  function Largest(v: Vector): (m: real)
    ensures Within(v, m)
    ensures m == Abs(v[0]) || m == Abs(v[1]) || m == Abs(v[2]) || m == Abs(v[3])
  {
    var a := if Abs(v[0]) < Abs(v[1]) then Abs(v[1]) else Abs(v[0]);
    var b := if Abs(v[2]) < Abs(v[3]) then Abs(v[3]) else Abs(v[2]);
    if a < b then b else a
  }

  lemma KernelTrivial(p: seq<Double>, q: seq<Double>, v: Vector)
    requires Accepted(p, q)
    requires Apply(p, v) == ORIGIN || Apply(q, v) == ORIGIN
    ensures v == ORIGIN
  {
    var m := Largest(v);
    forall row: nat | row < 4 ensures Abs(v[row]) <= 4.0 * Slack(m) {
      RoundTripError(p, q, v, m, row);
      DotZero(Row(p, row), ORIGIN);
      DotZero(Row(q, row), ORIGIN);
    }
    assert Abs(v[0]) <= 4.0 * Slack(m) && Abs(v[1]) <= 4.0 * Slack(m);
    assert Abs(v[2]) <= 4.0 * Slack(m) && Abs(v[3]) <= 4.0 * Slack(m);
  }

  function Minus(u: Vector, v: Vector): Vector { seq(4, i requires 0 <= i < 4 => u[i] - v[i]) }

  lemma MinusZero(u: Vector, v: Vector)
    requires Minus(u, v) == ORIGIN
    ensures u == v
  {
    forall i: nat | i < 4 ensures u[i] == v[i] {
      assert Minus(u, v)[i] == u[i] - v[i] && ORIGIN[i] == 0.0;
    }
  }

  lemma MinusTerm(x: real, u: real, v: real)
    ensures x * u == x * (u - v) + x * v
  {
  }

  lemma DotMinus(x: Vector, u: Vector, v: Vector)
    ensures Dot(x, Minus(u, v), 4) == Dot(x, u, 4) - Dot(x, v, 4)
  {
    var t, r, w := Terms(x, u), Terms(x, Minus(u, v)), Terms(x, v);
    forall i: nat | i < 4 ensures t(i) == r(i) + w(i) {
      MinusTerm(x[i], u[i], v[i]);
    }
    TotalAdds(t, r, w, 4);
  }

  lemma SameImage(m: seq<Double>, u: Vector, v: Vector)
    requires AllFinite(m) && Apply(m, u) == Apply(m, v)
    ensures Apply(m, Minus(u, v)) == ORIGIN
  {
    forall row: nat | row < 4 ensures Apply(m, Minus(u, v))[row] == 0.0 {
      DotMinus(Row(m, row), u, v);
      assert Apply(m, u)[row] == RowDot(m, row, u) && Apply(m, v)[row] == RowDot(m, row, v);
    }
  }

  /** Both matrices of an accepted pair are nonsingular: they map different vectors to different vectors. */
  lemma Nonsingular(p: seq<Double>, q: seq<Double>, u: Vector, v: Vector)
    requires Accepted(p, q)
    requires Apply(p, u) == Apply(p, v) || Apply(q, u) == Apply(q, v)
    ensures u == v
  {
    if Apply(p, u) == Apply(p, v) { SameImage(p, u, v); } else { SameImage(q, u, v); }
    KernelTrivial(p, q, Minus(u, v));
    MinusZero(u, v);
  }

  // --- What is certainly accepted ---

  function Unit(col: nat): Vector { seq(4, i => if i == col then 1.0 else 0.0) }

  lemma UnitTotal(t: nat -> real, x: Vector, col: nat)
    requires col < 4 && forall i: nat :: i < 4 ==> t(i) == if i == col then x[i] else 0.0
    ensures Total(t, 4) == x[col]
  {
    assert Total(t, 2) == 0.0 + t(0) + t(1);
    assert Total(t, 4) == Total(t, 2) + t(2) + t(3);
  }

  lemma DotUnit(x: Vector, col: nat)
    requires col < 4
    ensures Dot(x, Unit(col), 4) == x[col]
  {
    forall i: nat | i < 4 ensures Terms(x, Unit(col))(i) == if i == col then x[i] else 0.0 {
      assert Term(x, Unit(col), i) == x[i] * Unit(col)[i];
    }
    UnitTotal(Terms(x, Unit(col)), x, col);
  }

  /** Undoes `b`: applied after it, gives every vector back. */
  ghost predicate Undoes(a: seq<Double>, b: seq<Double>)
    requires AllFinite(a) && AllFinite(b)
  {
    forall v: Vector :: Apply(a, Apply(b, v)) == v
  }

  lemma EntryOfInverse(a: seq<Double>, b: seq<Double>, row: nat, col: nat)
    requires AllFinite(a) && AllFinite(b) && Undoes(a, b) && row < 4 && col < 4
    ensures Entry(a, b, row, col) == if row == col then 1.0 else 0.0
  {
    var e := Unit(col);
    assert Apply(a, Apply(b, e)) == e;
    assert Apply(a, Apply(b, e))[row] == RowDot(a, row, Apply(b, e));
    AppliedIsProduct(a, b, e, row);
    DotUnit(EntryRow(a, b, row), col);
    SumsAre(a, b, row, 4, col);
  }

  /** Finite matrices that undo each other are accepted, if the projection fits in single precision. */
  lemma InversesAccepted(p: seq<Double>, q: seq<Double>)
    requires AllFinite(p) && AllFinite(q) && Undoes(p, q) && Undoes(q, p)
    requires forall i :: 0 <= i < 16 ==> Abs(p[i].value) <= MAX_FLOAT
    ensures Accepted(p, q)
  {
    forall row, col | 0 <= row < 4 && 0 <= col < 4 ensures EntryOk(p, q, row, col) {
      EntryOfInverse(p, q, row, col);
      EntryOfInverse(q, p, row, col);
    }
  }
}
