/** Real and integer arithmetic shared by the codecs: Python's ties-to-even
    `round`, finite sums, and the parity lattice of the QIM primitive. */
module Numbers {

  function Abs(x: real): real { if x < 0.0 then -x else x }

  function Min(x: real, y: real): real { if y < x then y else x }

  function Max(x: real, y: real): real { if y > x then y else x }

  /** Python's `round`: nearest integer, ties to the even neighbour. */
  function Round(x: real): (n: int)
    ensures Abs(x - n as real) <= 0.5
    ensures Abs(x - n as real) == 0.5 ==> n % 2 == 0
  {
    var f := x.Floor;
    var d := x - f as real;
    if d < 0.5 then f
    else if d > 0.5 then f + 1
    else if f % 2 == 0 then f
    else f + 1
  }

  lemma RoundNearest(x: real, n: int)
    requires Abs(x - n as real) < 0.5
    ensures Round(x) == n
  {
    var m := Round(x);
    assert -1.0 < (m - n) as real < 1.0;
  }

  lemma ScaleAbs(x: real, bound: real, d: real)
    requires d > 0.0
    ensures Abs(x) <= bound <==> Abs(x * d) <= bound * d
  {
    assert x <= bound <==> x * d <= bound * d;
    assert -bound <= x <==> -bound * d <= x * d;
  }

  lemma ScaleOrder(x: real, y: real, d: real)
    requires d > 0.0
    ensures x >= y <==> x * d >= y * d
  {
  }

  function Pow2(n: nat): nat { if n == 0 then 1 else 2 * Pow2(n - 1) }

  // ----- integer division by a variable

  lemma MulAtLeast(k: int, d: int)
    requires d >= 0
    ensures k >= 1 ==> k * d >= d
    ensures k <= -1 ==> k * d <= -d
  {
    if k >= 1 { assert (k - 1) * d >= 0; }
    if k <= -1 { assert (k + 1) * d <= 0; }
  }

  lemma DivModUnique(c: int, q: int, d: nat)
    requires 0 <= c - q * d < d
    ensures c / d == q && c % d == c - q * d
  {
    assert (c / d - q) * d == c / d * d - q * d;
    MulAtLeast(c / d - q, d);
  }

  lemma DivMod(c: int, d: nat)
    requires d > 0
    ensures c == c / d * d + c % d
  {
  }

  // ----- finite sums

  function Sum(n: nat, f: int -> real): real
    decreases n, f
  {
    if n == 0 then 0.0 else Sum(n - 1, f) + f(n - 1)
  }

  lemma {:induction false} SumExt(n: nat, f: int -> real, g: int -> real)
    requires forall i :: 0 <= i < n ==> f(i) == g(i)
    ensures Sum(n, f) == Sum(n, g)
  {
    if n > 0 { SumExt(n - 1, f, g); }
  }

  lemma {:induction false} SumAdd(n: nat, f: int -> real, g: int -> real)
    ensures Sum(n, i => f(i) + g(i)) == Sum(n, f) + Sum(n, g)
  {
    if n > 0 {
      SumAdd(n - 1, f, g);
    }
  }

  lemma Product(x: real, y: real, x': real, y': real)
    requires x == x' && y == y'
    ensures x * y == x' * y'
  {
  }

  ghost predicate Combines(n: nat, terms: int -> real, c: real, f: int -> real, d: real, g: int -> real) {
    forall i :: 0 <= i < n ==> terms(i) == c * f(i) + d * g(i)
  }

  /** Linearity, stated on already named terms. */
  lemma {:induction false} SumCombine(n: nat, terms: int -> real, c: real, f: int -> real, d: real, g: int -> real)
    requires Combines(n, terms, c, f, d, g)
    ensures Sum(n, terms) == c * Sum(n, f) + d * Sum(n, g)
  {
    if n > 0 {
      SumCombine(n - 1, terms, c, f, d, g);
      Distribute(c, Sum(n - 1, f), f(n - 1), d, Sum(n - 1, g), g(n - 1));
    }
  }

  lemma Distribute(c: real, x: real, y: real, d: real, z: real, w: real)
    ensures c * x + d * z + (c * y + d * w) == c * (x + y) + d * (z + w)
  {
  }

  function Weighted(m: (int, int) -> real, i: int, w: int -> real): int -> real { k => m(i, k) * w(k) }

  /** Component i of the matrix-vector product m w. */
  function Dot(m: (int, int) -> real, i: int, w: int -> real): real { Sum(8, Weighted(m, i, w)) }

  function Scaled(a: int -> real, m: (int, int) -> real, w: int -> real): int -> real { i => a(i) * Dot(m, i, w) }

  function Column(a: int -> real, m: (int, int) -> real, k: int): int -> real { i => a(i) * m(i, k) }

  function Folded(n: nat, a: int -> real, m: (int, int) -> real, w: int -> real): int -> real {
    k => Sum(n, Column(a, m, k)) * w(k)
  }

  /** a (m w) = (a m) w, taking the first n rows of m. */
  lemma {:induction false} DotAssociative(n: nat, a: int -> real, m: (int, int) -> real, w: int -> real)
    ensures Sum(n, Scaled(a, m, w)) == Sum(8, Folded(n, a, m, w))
  {
    if n == 0 {
      FoldedEmpty(a, m, w);
    } else {
      DotAssociative(n - 1, a, m, w);
      FoldedStep(n - 1, a, m, w);
    }
  }

  lemma FoldedEmpty(a: int -> real, m: (int, int) -> real, w: int -> real)
    ensures Sum(8, Folded(0, a, m, w)) == 0.0
  {
    forall k | 0 <= k < 8 ensures Folded(0, a, m, w)(k) == 0.0 {
      assert Folded(0, a, m, w)(k) == 0.0 * w(k);
    }
    SumZero(8, Folded(0, a, m, w));
  }

  lemma FoldedStep(n: nat, a: int -> real, m: (int, int) -> real, w: int -> real)
    ensures Sum(8, Folded(n + 1, a, m, w)) == Sum(8, Folded(n, a, m, w)) + Scaled(a, m, w)(n)
  {
    FoldedTerms(n, a, m, w);
    SumCombine(8, Folded(n + 1, a, m, w), 1.0, Folded(n, a, m, w), a(n), Weighted(m, n, w));
  }

  lemma FoldedTerms(n: nat, a: int -> real, m: (int, int) -> real, w: int -> real)
    ensures Combines(8, Folded(n + 1, a, m, w), 1.0, Folded(n, a, m, w), a(n), Weighted(m, n, w))
  {
    forall k | 0 <= k < 8
      ensures Folded(n + 1, a, m, w)(k) == 1.0 * Folded(n, a, m, w)(k) + a(n) * Weighted(m, n, w)(k)
    {
      Spread(Sum(n, Column(a, m, k)), a(n), m(n, k), w(k));
    }
  }

  lemma Spread(x: real, a: real, m: real, w: real)
    ensures (x + a * m) * w == 1.0 * (x * w) + a * (m * w)
  {
  }

  lemma {:induction false} SumZero(n: nat, f: int -> real)
    requires forall i :: 0 <= i < n ==> f(i) == 0.0
    ensures Sum(n, f) == 0.0
  {
    if n > 0 { SumZero(n - 1, f); }
  }

  /** A sum in which only index k contributes. */
  lemma {:induction false} SumPick(n: nat, k: int, f: int -> real)
    requires 0 <= k < n
    requires forall i :: 0 <= i < n && i != k ==> f(i) == 0.0
    ensures Sum(n, f) == f(k)
  {
    if k == n - 1 { SumZero(n - 1, f); } else { SumPick(n - 1, k, f); }
  }

  lemma {:induction false} SumBound(n: nat, f: int -> real, bound: real)
    requires forall i :: 0 <= i < n ==> Abs(f(i)) <= bound
    ensures Abs(Sum(n, f)) <= n as real * bound
  {
    if n > 0 {
      SumBound(n - 1, f, bound);
      OneMore(n, bound);
      AbsStep(Sum(n - 1, f), (n - 1) as real * bound, f(n - 1), bound);
    }
  }

  lemma {:induction false} SumAtLeast(n: nat, f: int -> real, low: real)
    requires forall i :: 0 <= i < n ==> f(i) >= low
    ensures Sum(n, f) >= n as real * low
  {
    if n > 0 {
      SumAtLeast(n - 1, f, low);
      OneMore(n, low);
    }
  }

  lemma {:induction false} SumAtMost(n: nat, f: int -> real, high: real)
    requires forall i :: 0 <= i < n ==> f(i) <= high
    ensures Sum(n, f) <= n as real * high
  {
    if n > 0 {
      SumAtMost(n - 1, f, high);
      OneMore(n, high);
    }
  }

  lemma {:induction false} SumBelow(n: nat, f: int -> real, high: real)
    requires n > 0 && forall i :: 0 <= i < n ==> f(i) < high
    ensures Sum(n, f) < n as real * high
  {
    OneMore(n, high);
    if n == 1 { assert Sum(0, f) == 0.0; } else { SumBelow(n - 1, f, high); }
  }

  function Differences(f: int -> real, g: int -> real): int -> real { i => g(i) - f(i) }

  lemma SumClose(n: nat, f: int -> real, g: int -> real, error: real)
    requires forall i :: 0 <= i < n ==> Abs(g(i) - f(i)) <= error
    ensures Abs(Sum(n, g) - Sum(n, f)) <= n as real * error
  {
    SumCombine(n, Differences(f, g), 1.0, g, -1.0, f);
    SumBound(n, Differences(f, g), error);
  }

  lemma OneMore(n: nat, bound: real)
    requires n > 0
    ensures n as real * bound == (n - 1) as real * bound + bound
  {
  }

  lemma AbsStep(x: real, bound: real, y: real, step: real)
    requires Abs(x) <= bound && Abs(y) <= step
    ensures Abs(x + y) <= bound + step
  {
  }

  /** Summing a length-2n range by adjacent pairs. */
  lemma {:induction false} SumPairs(n: nat, f: int -> real)
    ensures Sum(2 * n, f) == Sum(n, i => f(2 * i) + f(2 * i + 1))
  {
    if n > 0 {
      SumPairs(n - 1, f);
      assert Sum(2 * n, f) == Sum(2 * n - 2, f) + f(2 * n - 2) + f(2 * n - 1);
    }
  }

  lemma Sum8(f: int -> real)
    ensures Sum(8, f) == f(0) + f(1) + f(2) + f(3) + f(4) + f(5) + f(6) + f(7)
  {
    assert Sum(1, f) == f(0);
    assert Sum(2, f) == Sum(1, f) + f(1);
    assert Sum(3, f) == Sum(2, f) + f(2);
    assert Sum(4, f) == Sum(3, f) + f(3);
    assert Sum(5, f) == Sum(4, f) + f(4);
    assert Sum(6, f) == Sum(5, f) + f(5);
    assert Sum(7, f) == Sum(6, f) + f(6);
  }
}
