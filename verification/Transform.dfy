/** The orthonormal 8x8 DCT-II and its inverse, over exact reals.

    `cosine(k)` stands for cos(k*pi/16) and `root2` for sqrt(2); everything
    proved about them follows from the product-to-sum law and root2^2 = 2. */
module Transform {
  import opened Numbers

  type Field = (int, int) -> real

  datatype Basis = Basis(root2: real, cosine: int -> real) {

    ghost predicate Valid() {
      && root2 > 0.0 && root2 * root2 == 2.0
      && cosine(0) == 1.0 && cosine(8) == 0.0
      && forall a, b :: ProductToSum(a, b)
    }

    ghost predicate ProductToSum(a: int, b: int) {
      2.0 * cosine(a) * cosine(b) == cosine(a + b) + cosine(a - b)
    }

    /** Row = frequency, column = position: scale(f) * cos(pi (2p+1) f / 16). */
    function Matrix(): Field {
      (frequency, position) =>
        Scale(frequency) * cosine((2 * position + 1) * frequency)
    }

    // ----- consequences of the product-to-sum law

    lemma Symmetries(k: int)
      requires Valid()
      ensures cosine(-k) == cosine(k)
      ensures cosine(k + 16) == -cosine(k)
      ensures cosine(16 - k) == -cosine(k)
    {
      assert ProductToSum(0, k);
      assert ProductToSum(0, k - 8);
      assert ProductToSum(k + 8, 8);
      assert ProductToSum(8 - k, 8);
    }

    lemma {:induction false} Shift(x: int, k: nat)
      requires Valid()
      ensures cosine(x + 16 * k) == if k % 2 == 0 then cosine(x) else -cosine(x)
    {
      if k > 0 {
        Shift(x, k - 1);
        Symmetries(x + 16 * (k - 1));
      }
    }

    lemma {:induction false} CosineBound(k: int)
      requires Valid()
      ensures -1.0 <= cosine(k) <= 1.0
    {
      // Doubling four times reaches a multiple of 16, where the value is +-1.
      var c1, c2, c4, c8 := cosine(k), cosine(2 * k), cosine(4 * k), cosine(8 * k);
      assert ProductToSum(k, k) && ProductToSum(2 * k, 2 * k)
             && ProductToSum(4 * k, 4 * k) && ProductToSum(8 * k, 8 * k);
      assert cosine(16 * k) in {1.0, -1.0} by {
        if k >= 0 { Shift(0, k); } else { Shift(0, -k); Symmetries(16 * k); }
      }
      SquareBound(c8, cosine(16 * k));
      SquareBound(c4, c8);
      SquareBound(c2, c4);
      SquareBound(c1, c2);
    }

    static lemma SquareBound(c: real, d: real)
      requires 2.0 * c * c == d + 1.0 && d <= 1.0
      ensures -1.0 <= c <= 1.0
    {
      SquareAboveOne(c);
      SquareAboveOne(-c);
    }

    static lemma SquareAboveOne(c: real)
      ensures c > 1.0 ==> c * c > c
    {
      if c > 1.0 { assert (c - 1.0) * c > 0.0; }
    }

    lemma MatrixBound(u: int, i: int)
      requires Valid()
      ensures Abs(Matrix()(u, i)) <= 0.5
    {
      CosineBound((2 * i + 1) * u);
      SquareAboveOne(root2);
      ScaleUnit(root2 / 4.0, cosine((2 * i + 1) * u));
    }

    static lemma ScaleUnit(r: real, c: real)
      requires 0.0 <= r <= 0.5 && -1.0 <= c <= 1.0
      ensures Abs(r * c) <= 0.5
    {
      assert -r <= r * c <= r;
    }

    // ----- orthonormality

    function OddMultiples(k: int): int -> real { p => cosine((2 * p + 1) * k) }

    /** The odd multiples of k sum to zero unless k is zero: the eight angles
        cancel in pairs, each pair half a turn apart. */
    lemma OddSum(k: nat)
      requires Valid() && k < 16
      ensures Sum(8, OddMultiples(k)) == if k == 0 then 8.0 else 0.0
    {
      var f := OddMultiples(k);
      Sum8(f);
      if k == 0 {
      } else if k % 2 == 1 {
        Mirrored(0, k); Mirrored(1, k); Mirrored(2, k); Mirrored(3, k);
      } else if k % 4 == 2 {
        HalfTurn(0, k); HalfTurn(1, k); HalfTurn(2, k); HalfTurn(3, k);
      } else {
        QuarterTurns(0, k); QuarterTurns(2, k); QuarterTurns(4, k); QuarterTurns(6, k);
      }
    }

    lemma Mirrored(p: nat, k: nat)
      requires Valid() && k % 2 == 1 && p < 4
      ensures OddMultiples(k)(7 - p) == -OddMultiples(k)(p)
    {
      var angle := (2 * p + 1) * k;
      Shift(-angle, k);
      Symmetries(angle);
      assert -angle + 16 * k == (2 * (7 - p) + 1) * k;
    }

    lemma HalfTurn(p: nat, k: nat)
      requires Valid() && k % 4 == 2 && p < 4
      ensures OddMultiples(k)(p + 4) == -OddMultiples(k)(p)
    {
      var angle := (2 * p + 1) * k;
      Shift(angle, k / 2);
      assert (2 * (p + 4) + 1) * k == angle + 8 * k;
      assert 8 * k == 16 * (k / 2);
    }

    lemma QuarterTurns(p: nat, k: nat)
      requires Valid() && k in {4, 8, 12} && p in {0, 2, 4, 6}
      ensures OddMultiples(k)(p + 1) == -OddMultiples(k)(p)
    {
      Symmetries(4); Symmetries(8); Symmetries(12);
      Shift(4, p / 2); Shift(12, p / 2);
      Shift(8, p); Shift(24, p);
      Symmetries(24);
      Shift(12, 3 * p / 2); Shift(36, 3 * p / 2); Shift(4, 2);
      assert cosine(36) == cosine(4 + 16 * 2);
    }

    lemma RowsOrthonormal()
      requires Valid()
      ensures Orthonormal(Matrix())
    {
      forall u, k | 0 <= u < 8 && 0 <= k < 8 ensures RowProduct(Matrix(), u, k) == Delta(u, k) {
        RowDot(u, k);
      }
    }

    function Scale(frequency: int): real { if frequency == 0 then root2 / 4.0 else 0.5 }

    lemma RowDot(u: nat, k: nat)
      requires Valid() && u < 8 && k < 8
      ensures RowProduct(Matrix(), u, k) == Delta(u, k)
    {
      if u < k {
        SumExt(8, RowTerms(Matrix(), u, k), RowTerms(Matrix(), k, u));
      }
      RowDotOrdered(if u < k then k else u, if u < k then u else k);
    }

    lemma RowDotOrdered(u: nat, k: nat)
      requires Valid() && k <= u < 8
      ensures RowProduct(Matrix(), u, k) == Delta(u, k)
    {
      EntryProducts(u, k);
      SumCombine(8, RowTerms(Matrix(), u, k), PairScale(u, k), OddMultiples(u + k), PairScale(u, k),
                 OddMultiples(u - k));
      OddSum(u + k);
      OddSum(u - k);
    }

    /** Half the product of the two row scales. */
    function PairScale(u: int, k: int): real {
      if u == 0 && k == 0 then 0.0625 else if u == 0 || k == 0 then root2 / 16.0 else 0.125
    }

    lemma EntryProducts(u: nat, k: nat)
      requires Valid()
      ensures Combines(8, RowTerms(Matrix(), u, k), PairScale(u, k), OddMultiples(u + k), PairScale(u, k),
                       OddMultiples(u - k))
    {
      forall i | 0 <= i < 8
        ensures RowTerms(Matrix(), u, k)(i)
             == PairScale(u, k) * (OddMultiples(u + k)(i) + OddMultiples(u - k)(i))
      {
        EntryProduct(u, k, i);
      }
    }

    lemma EntryProduct(u: nat, k: nat, i: int)
      requires Valid()
      ensures RowTerms(Matrix(), u, k)(i)
           == PairScale(u, k) * (OddMultiples(u + k)(i) + OddMultiples(u - k)(i))
    {
      var a, b := (2 * i + 1) * u, (2 * i + 1) * k;
      assert ProductToSum(a, b);
      assert a + b == (2 * i + 1) * (u + k) && a - b == (2 * i + 1) * (u - k);
      Regroup(Scale(u), Scale(k), cosine(a), cosine(b));
      assert Scale(u) * Scale(k) / 2.0 == PairScale(u, k) by {
        assert root2 / 4.0 * (root2 / 4.0) == root2 * root2 / 16.0;
      }
    }

    // ----- the same for the columns, which makes the matrix two-sided inverse

    function EvenMultiples(k: int): int -> real { f => cosine(2 * k * f) }

    lemma EvenSum(k: nat)
      requires Valid() && k < 16
      ensures Sum(8, EvenMultiples(k)) == if k == 0 then 8.0 else if k % 2 == 1 then 1.0 else 0.0
    {
      Sum8(EvenMultiples(k));
      if k == 0 {
      } else if k % 2 == 1 {
        Reflected(1, k); Reflected(2, k); Reflected(3, k); Reflected(4, k);
      } else if k % 4 == 2 {
        Opposite(0, k); Opposite(1, k); Opposite(2, k); Opposite(3, k);
      } else {
        EighthTurns(k / 4);
      }
    }

    /** Whole and half turns of the remaining three angles. */
    lemma EighthTurns(turns: nat)
      requires Valid() && 1 <= turns < 4
      ensures var f := EvenMultiples(4 * turns);
              f(0) + f(1) + f(2) + f(3) + f(4) + f(5) + f(6) + f(7) == 0.0
    {
      Shift(0, turns); Shift(0, 2 * turns); Shift(0, 3 * turns);
      Shift(8 * (turns % 2), turns / 2);
      Shift(8 * (turns % 2), turns / 2 + turns);
      Shift(8 * (turns % 2), turns / 2 + 2 * turns);
      Shift(8 * (turns % 2), turns / 2 + 3 * turns);
    }

    lemma Reflected(f: nat, k: nat)
      requires Valid() && k % 2 == 1 && 0 < f <= 4
      ensures EvenMultiples(k)(8 - f) == -EvenMultiples(k)(f)
    {
      Shift(-2 * k * f, k);
      Symmetries(2 * k * f);
      assert -2 * k * f + 16 * k == 2 * k * (8 - f);
    }

    lemma Opposite(f: nat, k: nat)
      requires Valid() && k % 4 == 2 && f < 4
      ensures EvenMultiples(k)(f + 4) == -EvenMultiples(k)(f)
    {
      Shift(2 * k * f, k / 2);
      assert 2 * k * f + 16 * (k / 2) == 2 * k * (f + 4);
    }

    lemma ColumnsOrthonormal()
      requires Valid()
      ensures Orthonormal(Transpose(Matrix()))
    {
      forall i, j | 0 <= i < 8 && 0 <= j < 8
        ensures RowProduct(Transpose(Matrix()), i, j) == Delta(i, j)
      {
        ColumnDot(if i < j then j else i, if i < j then i else j);
        SumExt(8, RowTerms(Transpose(Matrix()), i, j), RowTerms(Transpose(Matrix()), j, i));
      }
    }

    /** The column product with the zero frequency scaled like the others. */
    function Level(i: int, j: int): int -> real {
      f => if f == 0 then 0.25 else Matrix()(f, i) * Matrix()(f, j)
    }

    lemma ColumnDot(i: nat, j: nat)
      requires Valid() && j <= i < 8
      ensures RowProduct(Transpose(Matrix()), i, j) == Delta(i, j)
    {
      LevelTotal(i, j);
      LevelSum(i, j);
    }

    lemma LevelTotal(i: nat, j: nat)
      requires Valid() && j <= i < 8
      ensures Sum(8, Level(i, j)) == Delta(i, j) + 0.125
    {
      LevelProducts(i, j);
      SumCombine(8, Level(i, j), 0.125, EvenMultiples(i + j + 1), 0.125, EvenMultiples(i - j));
      EvenSum(i + j + 1);
      EvenSum(i - j);
      assert i + j + 1 == 2 * j + 1 + (i - j);
      assert (i + j + 1) % 2 != (i - j) % 2;
    }

    lemma LevelSum(i: nat, j: nat)
      requires Valid()
      ensures RowProduct(Transpose(Matrix()), i, j) == Sum(8, Level(i, j)) - 0.125
    {
      Sum8(Level(i, j));
      Sum8(RowTerms(Transpose(Matrix()), i, j));
      assert Matrix()(0, i) == root2 / 4.0 && Matrix()(0, j) == root2 / 4.0;
      Product(Matrix()(0, i), Matrix()(0, j), root2 / 4.0, root2 / 4.0);
      assert root2 / 4.0 * (root2 / 4.0) == root2 * root2 / 16.0;
    }

    lemma LevelProducts(i: nat, j: nat)
      requires Valid()
      ensures Combines(8, Level(i, j), 0.125, EvenMultiples(i + j + 1), 0.125, EvenMultiples(i - j))
    {
      forall f | 0 <= f < 8
        ensures Level(i, j)(f) == 0.125 * EvenMultiples(i + j + 1)(f) + 0.125 * EvenMultiples(i - j)(f)
      {
        LevelProduct(i, j, f);
      }
    }

    lemma LevelProduct(i: nat, j: nat, f: nat)
      requires Valid()
      ensures Level(i, j)(f) == 0.125 * EvenMultiples(i + j + 1)(f) + 0.125 * EvenMultiples(i - j)(f)
    {
      if f != 0 {
        var a, b := (2 * i + 1) * f, (2 * j + 1) * f;
        assert ProductToSum(a, b);
        assert a + b == 2 * (i + j + 1) * f && a - b == 2 * (i - j) * f;
        Regroup(0.5, 0.5, cosine(a), cosine(b));
        assert Matrix()(f, i) == 0.5 * cosine(a) && Matrix()(f, j) == 0.5 * cosine(b);
        Product(Matrix()(f, i), Matrix()(f, j), 0.5 * cosine(a), 0.5 * cosine(b));
      }
    }

    static lemma Regroup(r: real, s: real, x: real, y: real)
      ensures (r * x) * (s * y) == r * s / 2.0 * (2.0 * x * y)
    {
    }
  }

  function Delta(i: int, j: int): real { if i == j then 1.0 else 0.0 }

  function RowTerms(p: Field, u: int, k: int): int -> real { i => p(u, i) * p(k, i) }

  function RowProduct(p: Field, u: int, k: int): real { Sum(8, RowTerms(p, u, k)) }

  ghost predicate Orthonormal(p: Field) {
    forall u, k :: 0 <= u < 8 && 0 <= k < 8 ==> RowProduct(p, u, k) == Delta(u, k)
  }

  function Transpose(p: Field): Field { (i, j) => p(j, i) }

  // ----- conjugation by an orthonormal matrix

  function RowOf(b: Field, i: int): int -> real { j => b(i, j) }

  function ColumnOf(b: Field, j: int): int -> real { i => b(i, j) }

  /** P B. */
  function LeftProduct(p: Field, b: Field): Field { (u, j) => Dot(p, u, ColumnOf(b, j)) }

  /** (P B) P^T on 8x8 blocks: the left product is formed first. */
  function Conjugate(p: Field, b: Field): Field { (u, v) => Dot(p, v, RowOf(LeftProduct(p, b), u)) }

  function Dct2(basis: Basis, block: Field): Field { Conjugate(basis.Matrix(), block) }

  function Idct2(basis: Basis, coefficients: Field): Field {
    Conjugate(Transpose(basis.Matrix()), coefficients)
  }

  lemma RowAgainstRow(p: Field, u: int, k: int)
    ensures Sum(8, Column(RowOf(p, u), Transpose(p), k)) == RowProduct(p, u, k)
  {
    forall i | 0 <= i < 8 ensures Column(RowOf(p, u), Transpose(p), k)(i) == RowTerms(p, u, k)(i) {
      Product(RowOf(p, u)(i), Transpose(p)(i, k), p(u, i), p(k, i));
    }
    SumExt(8, Column(RowOf(p, u), Transpose(p), k), RowTerms(p, u, k));
  }

  lemma FoldedDelta(p: Field, w: int -> real, u: int)
    requires Orthonormal(p) && 0 <= u < 8
    ensures Sum(8, Folded(8, RowOf(p, u), Transpose(p), w)) == w(u)
  {
    var folded := Folded(8, RowOf(p, u), Transpose(p), w);
    forall k | 0 <= k < 8 ensures folded(k) == Delta(u, k) * w(k) {
      RowAgainstRow(p, u, k);
      assert RowProduct(p, u, k) == Delta(u, k);
      Product(Sum(8, Column(RowOf(p, u), Transpose(p), k)), w(k), Delta(u, k), w(k));
    }
    SumPick(8, u, folded);
  }

  /** P (P^T w) = w, for w and P^T w given through their eight components. */
  lemma Recover(p: Field, w: int -> real, back: int -> real, u: int)
    requires Orthonormal(p) && 0 <= u < 8
    requires forall i :: 0 <= i < 8 ==> back(i) == Dot(Transpose(p), i, w)
    ensures Dot(p, u, back) == w(u)
  {
    forall i | 0 <= i < 8
      ensures Weighted(p, u, back)(i) == Scaled(RowOf(p, u), Transpose(p), w)(i)
    {
      Product(p(u, i), back(i), RowOf(p, u)(i), Dot(Transpose(p), i, w));
    }
    SumExt(8, Weighted(p, u, back), Scaled(RowOf(p, u), Transpose(p), w));
    DotAssociative(8, RowOf(p, u), Transpose(p), w);
    FoldedDelta(p, w, u);
  }

  lemma ScaledRows(p: Field, b: Field, right: int -> real, u: int, v: int)
    requires forall i :: 0 <= i < 8 ==> right(i) == Dot(p, v, RowOf(b, i))
    ensures Dot(p, u, right) == Sum(8, Scaled(RowOf(p, u), b, RowOf(p, v)))
  {
    forall i | 0 <= i < 8 ensures Weighted(p, u, right)(i) == Scaled(RowOf(p, u), b, RowOf(p, v))(i) {
      forall j | 0 <= j < 8 ensures Weighted(p, v, RowOf(b, i))(j) == Weighted(b, i, RowOf(p, v))(j) {
        Product(p(v, j), RowOf(b, i)(j), RowOf(p, v)(j), b(i, j));
      }
      SumExt(8, Weighted(p, v, RowOf(b, i)), Weighted(b, i, RowOf(p, v)));
      Product(p(u, i), right(i), RowOf(p, u)(i), Dot(b, i, RowOf(p, v)));
    }
    SumExt(8, Weighted(p, u, right), Scaled(RowOf(p, u), b, RowOf(p, v)));
  }

  lemma FoldedColumns(p: Field, b: Field, u: int, v: int)
    ensures Conjugate(p, b)(u, v) == Sum(8, Folded(8, RowOf(p, u), b, RowOf(p, v)))
  {
    var a, w := RowOf(p, u), RowOf(p, v);
    forall j | 0 <= j < 8
      ensures Folded(8, a, b, w)(j) == Weighted(p, v, RowOf(LeftProduct(p, b), u))(j)
    {
      forall i | 0 <= i < 8 ensures Column(a, b, j)(i) == Weighted(p, u, ColumnOf(b, j))(i) {
        Product(a(i), b(i, j), p(u, i), ColumnOf(b, j)(i));
      }
      SumExt(8, Column(a, b, j), Weighted(p, u, ColumnOf(b, j)));
      Product(Sum(8, Column(a, b, j)), w(j), RowOf(LeftProduct(p, b), u)(j), p(v, j));
    }
    SumExt(8, Folded(8, a, b, w), Weighted(p, v, RowOf(LeftProduct(p, b), u)));
  }

  /** P (B P^T) = (P B) P^T. */
  lemma RightFirst(p: Field, b: Field, right: int -> real, u: int, v: int)
    requires forall i :: 0 <= i < 8 ==> right(i) == Dot(p, v, RowOf(b, i))
    ensures Conjugate(p, b)(u, v) == Dot(p, u, right)
  {
    ScaledRows(p, b, right, u, v);
    DotAssociative(8, RowOf(p, u), b, RowOf(p, v));
    FoldedColumns(p, b, u, v);
  }

  /** Conjugation by P undoes conjugation by its transpose; `back` need only
      agree with the latter on the block. */
  lemma ConjugateInverse(p: Field, c: Field, back: Field, u: int, v: int)
    requires Orthonormal(p) && 0 <= u < 8 && 0 <= v < 8
    requires forall i, j :: 0 <= i < 8 && 0 <= j < 8 ==> back(i, j) == Conjugate(Transpose(p), c)(i, j)
    ensures Conjugate(p, back)(u, v) == c(u, v)
  {
    var q := Transpose(p);
    var right := (i: int) => LeftProduct(q, c)(i, v);
    forall i | 0 <= i < 8 ensures right(i) == Dot(p, v, RowOf(back, i)) {
      Recover(p, RowOf(LeftProduct(q, c), i), RowOf(back, i), v);
    }
    RightFirst(p, back, right, u, v);
    Recover(p, ColumnOf(c, v), right, u);
  }

  lemma DctOfIdct(basis: Basis, c: Field, back: Field, u: int, v: int)
    requires basis.Valid() && 0 <= u < 8 && 0 <= v < 8
    requires forall i, j :: 0 <= i < 8 && 0 <= j < 8 ==> back(i, j) == Idct2(basis, c)(i, j)
    ensures Dct2(basis, back)(u, v) == c(u, v)
  {
    basis.RowsOrthonormal();
    ConjugateInverse(basis.Matrix(), c, back, u, v);
  }

  lemma IdctOfDct(basis: Basis, block: Field, i: int, j: int)
    requires basis.Valid() && 0 <= i < 8 && 0 <= j < 8
    ensures Idct2(basis, Dct2(basis, block))(i, j) == block(i, j)
  {
    var q := Transpose(basis.Matrix());
    basis.ColumnsOrthonormal();
    SameConjugate(basis.Matrix(), Transpose(q), block);
    ConjugateInverse(q, block, Dct2(basis, block), i, j);
  }

  lemma SameConjugate(p: Field, q: Field, b: Field)
    requires forall i, j :: p(i, j) == q(i, j)
    ensures forall u, v :: Conjugate(p, b)(u, v) == Conjugate(q, b)(u, v)
  {
    forall u, v ensures Conjugate(p, b)(u, v) == Conjugate(q, b)(u, v) {
      forall j | 0 <= j < 8 ensures LeftProduct(p, b)(u, j) == LeftProduct(q, b)(u, j) {
        SumExt(8, Weighted(p, u, ColumnOf(b, j)), Weighted(q, u, ColumnOf(b, j)));
      }
      SumExt(8, Weighted(p, v, RowOf(LeftProduct(p, b), u)), Weighted(q, v, RowOf(LeftProduct(q, b), u)));
    }
  }

  // ----- error propagation

  lemma DotError(p: Field, u: int, w: int -> real, w': int -> real, e: real)
    requires forall i :: 0 <= i < 8 ==> Abs(p(u, i)) <= 0.5
    requires forall i :: 0 <= i < 8 ==> Abs(w'(i) - w(i)) <= e
    ensures Abs(Dot(p, u, w') - Dot(p, u, w)) <= 4.0 * e
  {
    forall i | 0 <= i < 8 ensures Abs(Weighted(p, u, w')(i) - Weighted(p, u, w)(i)) <= e / 2.0 {
      WeightedError(p, u, w, w', e, i);
    }
    SumClose(8, Weighted(p, u, w), Weighted(p, u, w'), e / 2.0);
  }

  lemma WeightedError(p: Field, u: int, w: int -> real, w': int -> real, e: real, i: int)
    requires Abs(p(u, i)) <= 0.5 && Abs(w'(i) - w(i)) <= e
    ensures Abs(Weighted(p, u, w')(i) - Weighted(p, u, w)(i)) <= e / 2.0
  {
    assert Weighted(p, u, w)(i) == p(u, i) * w(i);
    assert Weighted(p, u, w')(i) == p(u, i) * w'(i);
    ProductError(p(u, i), w(i), w'(i), e);
  }

  lemma ProductError(x: real, y: real, y': real, e: real)
    requires Abs(x) <= 0.5 && Abs(y' - y) <= e
    ensures Abs(x * y' - x * y) <= e / 2.0
  {
    HalfOf(x, y' - y);
    assert x * y' - x * y == x * (y' - y);
  }

  lemma HalfOf(x: real, d: real)
    requires Abs(x) <= 0.5
    ensures Abs(x * d) <= Abs(d) / 2.0
  {
    if d >= 0.0 {
      assert -0.5 * d <= x * d <= 0.5 * d;
    } else {
      assert 0.5 * d <= x * d <= -0.5 * d;
    }
  }

  /** A sample error of e moves no DCT coefficient by more than 16 e. */
  lemma DctError(basis: Basis, b: Field, b': Field, e: real, u: int, v: int)
    requires basis.Valid()
    requires forall i, j :: 0 <= i < 8 && 0 <= j < 8 ==> Abs(b'(i, j) - b(i, j)) <= e
    ensures Abs(Dct2(basis, b')(u, v) - Dct2(basis, b)(u, v)) <= 16.0 * e
  {
    RowsBounded(basis, u);
    RowsBounded(basis, v);
    ConjugateError(basis.Matrix(), b, b', e, u, v);
  }

  lemma RowsBounded(basis: Basis, u: int)
    requires basis.Valid()
    ensures forall i :: 0 <= i < 8 ==> Abs(basis.Matrix()(u, i)) <= 0.5
  {
    forall i | 0 <= i < 8 ensures Abs(basis.Matrix()(u, i)) <= 0.5 {
      basis.MatrixBound(u, i);
    }
  }

  lemma ConjugateError(p: Field, b: Field, b': Field, e: real, u: int, v: int)
    requires forall i :: 0 <= i < 8 ==> Abs(p(u, i)) <= 0.5
    requires forall i :: 0 <= i < 8 ==> Abs(p(v, i)) <= 0.5
    requires forall i, j :: 0 <= i < 8 && 0 <= j < 8 ==> Abs(b'(i, j) - b(i, j)) <= e
    ensures Abs(Conjugate(p, b')(u, v) - Conjugate(p, b)(u, v)) <= 16.0 * e
  {
    forall j | 0 <= j < 8 ensures Abs(LeftProduct(p, b')(u, j) - LeftProduct(p, b)(u, j)) <= 4.0 * e {
      DotError(p, u, ColumnOf(b, j), ColumnOf(b', j), e);
    }
    DotError(p, v, RowOf(LeftProduct(p, b), u), RowOf(LeftProduct(p, b'), u), 4.0 * e);
  }

  /** The transform reads only the block. */
  lemma SameBlock(p: Field, b: Field, b': Field, u: int, v: int)
    requires forall i, j :: 0 <= i < 8 && 0 <= j < 8 ==> b(i, j) == b'(i, j)
    ensures Conjugate(p, b)(u, v) == Conjugate(p, b')(u, v)
  {
    forall j | 0 <= j < 8 ensures LeftProduct(p, b)(u, j) == LeftProduct(p, b')(u, j) {
      SumExt(8, Weighted(p, u, ColumnOf(b, j)), Weighted(p, u, ColumnOf(b', j)));
    }
    SumExt(8, Weighted(p, v, RowOf(LeftProduct(p, b), u)), Weighted(p, v, RowOf(LeftProduct(p, b'), u)));
  }

  // ----- what a codec needs to know about a block transform

  predicate SameOnBlock(b: Field, b': Field) {
    forall i, j :: 0 <= i < 8 && 0 <= j < 8 ==> b(i, j) == b'(i, j)
  }

  predicate CloseOnBlock(b: Field, b': Field, e: real) {
    forall i, j :: 0 <= i < 8 && 0 <= j < 8 ==> Abs(b(i, j) - b'(i, j)) <= e
  }

  datatype BlockTransform = BlockTransform(forward: Field -> Field, inverse: Field -> Field) {

    ghost predicate Laws() {
      && (forall c, back :: Inverts(c, back))
      && (forall b, b' :: Local(b, b'))
      && (forall b, b', e :: Stable(b, b', e))
    }

    /** `forward` undoes `inverse`. */
    ghost predicate Inverts(c: Field, back: Field) {
      SameOnBlock(back, inverse(c)) ==> SameOnBlock(forward(back), c)
    }

    /** Both directions read nothing but the block. */
    ghost predicate Local(b: Field, b': Field) {
      SameOnBlock(b, b') ==> SameOnBlock(forward(b), forward(b')) && SameOnBlock(inverse(b), inverse(b'))
    }

    /** A sample error of e moves no coefficient by more than 16 e. */
    ghost predicate Stable(b: Field, b': Field, e: real) {
      CloseOnBlock(b, b', e) ==> CloseOnBlock(forward(b), forward(b'), 16.0 * e)
    }
  }

  function DctTransform(basis: Basis): BlockTransform {
    BlockTransform(b => Dct2(basis, b), c => Idct2(basis, c))
  }

  lemma DctLaws(basis: Basis)
    requires basis.Valid()
    ensures DctTransform(basis).Laws()
  {
    var t := DctTransform(basis);
    forall c, back ensures t.Inverts(c, back) { DctInverts(basis, c, back); }
    forall b, b' ensures t.Local(b, b') { DctLocal(basis, b, b'); }
    forall b, b', e ensures t.Stable(b, b', e) { DctStable(basis, b, b', e); }
  }

  lemma DctInverts(basis: Basis, c: Field, back: Field)
    requires basis.Valid()
    ensures DctTransform(basis).Inverts(c, back)
  {
    if SameOnBlock(back, Idct2(basis, c)) {
      forall u, v | 0 <= u < 8 && 0 <= v < 8 ensures Dct2(basis, back)(u, v) == c(u, v) {
        DctOfIdct(basis, c, back, u, v);
      }
    }
  }

  lemma DctLocal(basis: Basis, b: Field, b': Field)
    ensures DctTransform(basis).Local(b, b')
  {
    if SameOnBlock(b, b') {
      forall u, v | 0 <= u < 8 && 0 <= v < 8
        ensures Dct2(basis, b)(u, v) == Dct2(basis, b')(u, v)
        ensures Idct2(basis, b)(u, v) == Idct2(basis, b')(u, v)
      {
        SameBlock(basis.Matrix(), b, b', u, v);
        SameBlock(Transpose(basis.Matrix()), b, b', u, v);
      }
    }
  }

  lemma DctStable(basis: Basis, b: Field, b': Field, e: real)
    requires basis.Valid()
    ensures DctTransform(basis).Stable(b, b', e)
  {
    if CloseOnBlock(b, b', e) {
      forall u, v | 0 <= u < 8 && 0 <= v < 8
        ensures Abs(Dct2(basis, b)(u, v) - Dct2(basis, b')(u, v)) <= 16.0 * e
      {
        DctError(basis, b', b, e, u, v);
      }
    }
  }
}
