/** One orthonormal two-dimensional Haar level, with edge padding to an even
    shape and the inverse's crop back to the recorded shape. */
module Haar {
  import opened Numbers
  import opened Options
  import opened Transform

  datatype Bands = Bands(ll: Field, lh: Field, hl: Field, hh: Field)

  /** The nearest index below n. */
  function Nearest(i: int, n: int): int { if i >= n then n - 1 else i }

  /** Repeat the last row and column of a height x width image outwards. */
  function Padded(image: Field, height: int, width: int): Field {
    (y, x) => image(Nearest(y, height), Nearest(x, width))
  }

  /** The two members of pair i. */
  function Even(i: int): int { 2 * i }

  function Odd(i: int): int { 2 * i + 1 }

  function HorizontalLow(s: real, f: Field): Field
    requires s > 0.0
  { (y, x) => (f(y, Even(x)) + f(y, Odd(x))) / s }

  function HorizontalHigh(s: real, f: Field): Field
    requires s > 0.0
  { (y, x) => (f(y, Even(x)) - f(y, Odd(x))) / s }

  function VerticalLow(s: real, f: Field): Field
    requires s > 0.0
  { (y, x) => (f(Even(y), x) + f(Odd(y), x)) / s }

  function VerticalHigh(s: real, f: Field): Field
    requires s > 0.0
  { (y, x) => (f(Even(y), x) - f(Odd(y), x)) / s }

  function Dwt2(s: real, image: Field, height: int, width: int): Bands
    requires s > 0.0
  {
    var source := Padded(image, height, width);
    Bands(VerticalLow(s, HorizontalLow(s, source)), VerticalHigh(s, HorizontalLow(s, source)),
          VerticalLow(s, HorizontalHigh(s, source)), VerticalHigh(s, HorizontalHigh(s, source)))
  }

  /** Even lines hold (low + high)/s, odd lines (low - high)/s. */
  function Merged(s: real, low: real, high: real, line: int): real
    requires s > 0.0
  {
    (low + Signed(line, high)) / s
  }

  function MergeRows(s: real, low: Field, high: Field): Field
    requires s > 0.0
  { (y, x) => Merged(s, low(y / 2, x), high(y / 2, x), y) }

  function MergeColumns(s: real, low: Field, high: Field): Field
    requires s > 0.0
  { (y, x) => Merged(s, low(y, x / 2), high(y, x / 2), x) }

  function Idwt2(s: real, b: Bands): Field
    requires s > 0.0
  {
    MergeColumns(s, MergeRows(s, b.ll, b.lh), MergeRows(s, b.hl, b.hh))
  }

  method FillRows(s: real, low: Field, high: Field, rows: nat, columns: nat) returns (merged: array2<real>)
    requires s > 0.0
    ensures fresh(merged) && merged.Length0 == 2 * rows && merged.Length1 == columns
    ensures forall y, x :: 0 <= y < 2 * rows && 0 <= x < columns ==> merged[y, x] == MergeRows(s, low, high)(y, x)
  {
    merged := new real[2 * rows, columns];
    forall y, x | 0 <= y < 2 * rows && 0 <= x < columns && y % 2 == 0 {
      merged[y, x] := Merged(s, low(y / 2, x), high(y / 2, x), 0);
    }
    forall y, x | 0 <= y < 2 * rows && 0 <= x < columns && y % 2 == 1 {
      merged[y, x] := Merged(s, low(y / 2, x), high(y / 2, x), 1);
    }
  }

  method FillColumns(s: real, low: array2<real>, high: array2<real>, ghost lows: Field, ghost highs: Field)
    returns (merged: array2<real>)
    requires s > 0.0
    requires low.Length0 == high.Length0 && low.Length1 == high.Length1
    requires forall y, x :: 0 <= y < low.Length0 && 0 <= x < low.Length1 ==>
               low[y, x] == lows(y, x) && high[y, x] == highs(y, x)
    ensures fresh(merged) && merged.Length0 == low.Length0 && merged.Length1 == 2 * low.Length1
    ensures forall y, x :: 0 <= y < merged.Length0 && 0 <= x < merged.Length1 ==>
              merged[y, x] == MergeColumns(s, lows, highs)(y, x)
  {
    merged := new real[low.Length0, 2 * low.Length1];
    var rows, columns := low.Length0, 2 * low.Length1;
    forall y, x | 0 <= y < rows && 0 <= x < columns && x % 2 == 0 {
      merged[y, x] := Merged(s, low[y, x / 2], high[y, x / 2], x);
    }
    forall y, x | 0 <= y < rows && 0 <= x < columns && x % 2 == 1 {
      merged[y, x] := Merged(s, low[y, x / 2], high[y, x / 2], x);
    }
  }

  /** The same inverse filled into buffers slice by slice, with the crop. */
  method Restore(s: real, b: Bands, rows: nat, columns: nat, height: nat, width: nat)
    returns (restored: Option<array2<real>>)
    requires s > 0.0
    ensures restored.None? <==> height > 2 * rows || width > 2 * columns
    ensures restored.Some? ==>
              && fresh(restored.value)
              && restored.value.Length0 == height && restored.value.Length1 == width
              && forall y, x :: 0 <= y < height && 0 <= x < width ==> restored.value[y, x] == Idwt2(s, b)(y, x)
  {
    var low := FillRows(s, b.ll, b.lh, rows, columns);
    var high := FillRows(s, b.hl, b.hh, rows, columns);
    var wide := FillColumns(s, low, high, MergeRows(s, b.ll, b.lh), MergeRows(s, b.hl, b.hh));
    if height > 2 * rows || width > 2 * columns { return None; }
    var cropped := new real[height, width];
    forall y, x | 0 <= y < height && 0 <= x < width { cropped[y, x] := wide[y, x]; }
    return Some(cropped);
  }

  lemma HalfTwice(s: real, x: real)
    requires s > 0.0 && s * s == 2.0
    ensures x / s / s == x / 2.0
  {
    assert x / s / s * (s * s) == x;
  }

  /** Each analysis coefficient is a signed half sum of its 2x2 block. */
  lemma QuadAnalysis(s: real, f: Field, height: int, width: int, y: int, x: int)
    requires s > 0.0 && s * s == 2.0
    ensures var p := Padded(f, height, width);
            var (a, b) := (p(Even(y), Even(x)), p(Even(y), Odd(x)));
            var (c, d) := (p(Odd(y), Even(x)), p(Odd(y), Odd(x)));
            var w := Dwt2(s, f, height, width);
            && w.ll(y, x) == (a + b + c + d) / 2.0 && w.lh(y, x) == (a + b - c - d) / 2.0
            && w.hl(y, x) == (a - b + c - d) / 2.0 && w.hh(y, x) == (a - b - c + d) / 2.0
  {
    var p := Padded(f, height, width);
    TwoStages(s, p(Even(y), Even(x)), p(Even(y), Odd(x)), p(Odd(y), Even(x)), p(Odd(y), Odd(x)));
  }

  lemma TwoStages(s: real, a: real, b: real, c: real, d: real)
    requires s > 0.0 && s * s == 2.0
    ensures ((a + b) / s + (c + d) / s) / s == (a + b + c + d) / 2.0
    ensures ((a + b) / s - (c + d) / s) / s == (a + b - c - d) / 2.0
    ensures ((a - b) / s + (c - d) / s) / s == (a - b + c - d) / 2.0
    ensures ((a - b) / s - (c - d) / s) / s == (a - b - c + d) / 2.0
  {
    HalfTwice(s, a + b + c + d);
    HalfTwice(s, a + b - c - d);
    HalfTwice(s, a - b + c - d);
    HalfTwice(s, a - b - c + d);
    assert (a + b) / s + (c + d) / s == (a + b + c + d) / s;
    assert (a + b) / s - (c + d) / s == (a + b - c - d) / s;
    assert (a - b) / s + (c - d) / s == (a - b + c - d) / s;
    assert (a - b) / s - (c - d) / s == (a - b - c + d) / s;
  }

  lemma PaddedInside(f: Field, height: int, width: int, y: int, x: int)
    requires y < height && x < width
    ensures Padded(f, height, width)(y, x) == f(y, x)
  {
    assert Nearest(y, height) == y && Nearest(x, width) == x;
  }

  /** Inside an even shape no block is padded. */
  lemma PaddedBlock(f: Field, rows: nat, columns: nat, y: nat, x: nat)
    requires y < rows && x < columns
    ensures var p := Padded(f, 2 * rows, 2 * columns);
            && p(Even(y), Even(x)) == f(2 * y, 2 * x) && p(Even(y), Odd(x)) == f(2 * y, 2 * x + 1)
            && p(Odd(y), Even(x)) == f(2 * y + 1, 2 * x) && p(Odd(y), Odd(x)) == f(2 * y + 1, 2 * x + 1)
  {
    PaddedInside(f, 2 * rows, 2 * columns, Even(y), Even(x));
    PaddedInside(f, 2 * rows, 2 * columns, Even(y), Odd(x));
    PaddedInside(f, 2 * rows, 2 * columns, Odd(y), Even(x));
    PaddedInside(f, 2 * rows, 2 * columns, Odd(y), Odd(x));
  }

  /** Inside an even shape the LL sample is half the sum of its block. */
  lemma LowSample(s: real, f: Field, rows: nat, columns: nat, y: nat, x: nat)
    requires s > 0.0 && s * s == 2.0 && y < rows && x < columns
    ensures Dwt2(s, f, 2 * rows, 2 * columns).ll(y, x)
         == (f(2 * y, 2 * x) + f(2 * y, 2 * x + 1) + f(2 * y + 1, 2 * x) + f(2 * y + 1, 2 * x + 1)) / 2.0
  {
    QuadAnalysis(s, f, 2 * rows, 2 * columns, y, x);
    PaddedBlock(f, rows, columns, y, x);
  }

  /** Each restored sample is a signed half sum of the four bands. */
  lemma QuadSynthesis(s: real, w: Bands, y: int, x: int)
    requires s > 0.0 && s * s == 2.0
    ensures var (ll, lh, hl, hh) := (w.ll(y, x), w.lh(y, x), w.hl(y, x), w.hh(y, x));
            var r := Idwt2(s, w);
            && r(2 * y, 2 * x) == (ll + lh + hl + hh) / 2.0
            && r(2 * y, 2 * x + 1) == (ll + lh - hl - hh) / 2.0
            && r(2 * y + 1, 2 * x) == (ll - lh + hl - hh) / 2.0
            && r(2 * y + 1, 2 * x + 1) == (ll - lh - hl + hh) / 2.0
  {
    SynthesisAt(s, w, y, x, 0, 0);
    SynthesisAt(s, w, y, x, 0, 1);
    SynthesisAt(s, w, y, x, 1, 0);
    SynthesisAt(s, w, y, x, 1, 1);
  }

  function Signed(line: int, value: real): real { if line % 2 == 0 then value else -value }

  lemma SynthesisAt(s: real, w: Bands, y: int, x: int, dy: int, dx: int)
    requires s > 0.0 && s * s == 2.0 && 0 <= dy < 2 && 0 <= dx < 2
    ensures Idwt2(s, w)(2 * y + dy, 2 * x + dx)
         == (w.ll(y, x) + Signed(dy, w.lh(y, x)) + Signed(dx, w.hl(y, x) + Signed(dy, w.hh(y, x)))) / 2.0
  {
    MergedTwice(s, w.ll(y, x), w.lh(y, x), w.hl(y, x), w.hh(y, x), 2 * y + dy, 2 * x + dx);
    assert (2 * y + dy) / 2 == y && (2 * x + dx) / 2 == x;
  }

  lemma MergedTwice(s: real, ll: real, lh: real, hl: real, hh: real, y: int, x: int)
    requires s > 0.0 && s * s == 2.0
    ensures Merged(s, Merged(s, ll, lh, y), Merged(s, hl, hh, y), x)
         == (ll + Signed(y, lh) + Signed(x, hl + Signed(y, hh))) / 2.0
  {
    var low, high := ll + Signed(y, lh), hl + Signed(y, hh);
    HalfTwice(s, low + Signed(x, high));
    assert Merged(s, ll, lh, y) == low / s && Merged(s, hl, hh, y) == high / s;
    assert Signed(x, high / s) == Signed(x, high) / s;
    assert low / s + Signed(x, high) / s == (low + Signed(x, high)) / s;
  }

  /** Perfect reconstruction for every shape, odd edge-padded ones included. */
  lemma InverseUndoesAnalysis(s: real, image: Field, height: nat, width: nat, y: nat, x: nat)
    requires s > 0.0 && s * s == 2.0 && y < height && x < width
    ensures Idwt2(s, Dwt2(s, image, height, width))(y, x) == image(y, x)
  {
    RestoredAt(s, image, height, width, y / 2, x / 2, y % 2, x % 2);
  }

  lemma RestoredAt(s: real, image: Field, height: nat, width: nat, i: nat, j: nat, dy: nat, dx: nat)
    requires s > 0.0 && s * s == 2.0 && dy < 2 && dx < 2 && 2 * i + dy < height && 2 * j + dx < width
    ensures Idwt2(s, Dwt2(s, image, height, width))(2 * i + dy, 2 * j + dx) == image(2 * i + dy, 2 * j + dx)
  {
    var p, w := Padded(image, height, width), Dwt2(s, image, height, width);
    QuadAnalysis(s, image, height, width, i, j);
    SynthesisAt(s, w, i, j, dy, dx);
    HalfSums(p(Even(i), Even(j)), p(Even(i), Odd(j)), p(Odd(i), Even(j)), p(Odd(i), Odd(j)), dy, dx);
    PaddedInside(image, height, width, 2 * i + dy, 2 * j + dx);
    assert 2 * i + dy == (if dy == 0 then Even(i) else Odd(i)) && 2 * j + dx == (if dx == 0 then Even(j) else Odd(j));
  }

  /** The signed half sums of a block's half sums are its samples. */
  lemma HalfSums(a: real, b: real, c: real, d: real, dy: nat, dx: nat)
    requires dy < 2 && dx < 2
    ensures var (ll, lh, hl, hh) := ((a + b + c + d) / 2.0, (a + b - c - d) / 2.0, (a - b + c - d) / 2.0,
                                     (a - b - c + d) / 2.0);
            (ll + Signed(dy, lh) + Signed(dx, hl + Signed(dy, hh))) / 2.0
            == if dy == 0 then (if dx == 0 then a else b) else (if dx == 0 then c else d)
  {
  }

  /** Analysis undoes the inverse on even shapes; `image` need only agree with
      the inverse inside the shape. */
  lemma AnalysisUndoesInverse(s: real, w: Bands, image: Field, rows: nat, columns: nat, y: nat, x: nat)
    requires s > 0.0 && s * s == 2.0 && y < rows && x < columns
    requires forall i, j :: 0 <= i < 2 * rows && 0 <= j < 2 * columns ==> image(i, j) == Idwt2(s, w)(i, j)
    ensures var v := Dwt2(s, image, 2 * rows, 2 * columns);
            && v.ll(y, x) == w.ll(y, x) && v.lh(y, x) == w.lh(y, x)
            && v.hl(y, x) == w.hl(y, x) && v.hh(y, x) == w.hh(y, x)
  {
    QuadAnalysis(s, image, 2 * rows, 2 * columns, y, x);
    PaddedBlock(image, rows, columns, y, x);
    QuadSynthesis(s, w, y, x);
    SumsOfHalves(w.ll(y, x), w.lh(y, x), w.hl(y, x), w.hh(y, x));
  }

  /** The half sums of a block's signed half sums are its bands. */
  lemma SumsOfHalves(ll: real, lh: real, hl: real, hh: real)
    ensures var (a, b) := ((ll + lh + hl + hh) / 2.0, (ll + lh - hl - hh) / 2.0);
            var (c, d) := ((ll - lh + hl - hh) / 2.0, (ll - lh - hl + hh) / 2.0);
            && (a + b + c + d) / 2.0 == ll && (a + b - c - d) / 2.0 == lh
            && (a - b + c - d) / 2.0 == hl && (a - b - c + d) / 2.0 == hh
  {
  }

  // ----- energy

  function SquaresOfRow(f: Field, y: int): int -> real { x => f(y, x) * f(y, x) }

  function RowEnergies(f: Field, width: nat): int -> real { y => Sum(width, SquaresOfRow(f, y)) }

  function Energy(f: Field, height: nat, width: nat): real { Sum(height, RowEnergies(f, width)) }

  lemma QuadEnergy(s: real, f: Field, rows: nat, columns: nat, y: nat, x: nat)
    requires s > 0.0 && s * s == 2.0 && y < rows && x < columns
    ensures var w := Dwt2(s, f, 2 * rows, 2 * columns);
            SquaresOfRow(f, 2 * y)(2 * x) + SquaresOfRow(f, 2 * y)(2 * x + 1)
            + (SquaresOfRow(f, 2 * y + 1)(2 * x) + SquaresOfRow(f, 2 * y + 1)(2 * x + 1))
            == (SquaresOfRow(w.ll, y)(x) + SquaresOfRow(w.lh, y)(x))
            + (SquaresOfRow(w.hl, y)(x) + SquaresOfRow(w.hh, y)(x))
  {
    QuadAnalysis(s, f, 2 * rows, 2 * columns, y, x);
    PaddedBlock(f, rows, columns, y, x);
    var w := Dwt2(s, f, 2 * rows, 2 * columns);
    FourSquares(f(2 * y, 2 * x), f(2 * y, 2 * x + 1), f(2 * y + 1, 2 * x), f(2 * y + 1, 2 * x + 1),
                w.ll(y, x), w.lh(y, x), w.hl(y, x), w.hh(y, x));
  }

  lemma FourSquares(a: real, b: real, c: real, d: real, ll: real, lh: real, hl: real, hh: real)
    requires ll == (a + b + c + d) / 2.0 && lh == (a + b - c - d) / 2.0
    requires hl == (a - b + c - d) / 2.0 && hh == (a - b - c + d) / 2.0
    ensures a * a + b * b + (c * c + d * d) == (ll * ll + lh * lh) + (hl * hl + hh * hh)
  {
  }

  /** Even-shape analysis conserves energy. */
  lemma EnergyConserved(s: real, f: Field, rows: nat, columns: nat)
    requires s > 0.0 && s * s == 2.0
    ensures var w := Dwt2(s, f, 2 * rows, 2 * columns);
            Energy(f, 2 * rows, 2 * columns)
            == Energy(w.ll, rows, columns) + Energy(w.lh, rows, columns)
            + (Energy(w.hl, rows, columns) + Energy(w.hh, rows, columns))
  {
    var w := Dwt2(s, f, 2 * rows, 2 * columns);
    var top := (y: int) => RowEnergies(w.ll, columns)(y) + RowEnergies(w.lh, columns)(y);
    var bottom := (y: int) => RowEnergies(w.hl, columns)(y) + RowEnergies(w.hh, columns)(y);
    SumPairs(rows, RowEnergies(f, 2 * columns));
    forall y | 0 <= y < rows
      ensures RowEnergies(f, 2 * columns)(2 * y) + RowEnergies(f, 2 * columns)(2 * y + 1) == top(y) + bottom(y)
    {
      RowPairEnergy(s, f, rows, columns, y);
    }
    SumExt(rows, y => RowEnergies(f, 2 * columns)(2 * y) + RowEnergies(f, 2 * columns)(2 * y + 1),
           y => top(y) + bottom(y));
    SumAdd(rows, top, bottom);
    SumAdd(rows, RowEnergies(w.ll, columns), RowEnergies(w.lh, columns));
    SumAdd(rows, RowEnergies(w.hl, columns), RowEnergies(w.hh, columns));
    SumExt(rows, top, y => RowEnergies(w.ll, columns)(y) + RowEnergies(w.lh, columns)(y));
    SumExt(rows, bottom, y => RowEnergies(w.hl, columns)(y) + RowEnergies(w.hh, columns)(y));
  }

  lemma RowPairEnergy(s: real, f: Field, rows: nat, columns: nat, y: nat)
    requires s > 0.0 && s * s == 2.0 && y < rows
    ensures var w := Dwt2(s, f, 2 * rows, 2 * columns);
            RowEnergies(f, 2 * columns)(2 * y) + RowEnergies(f, 2 * columns)(2 * y + 1)
            == (RowEnergies(w.ll, columns)(y) + RowEnergies(w.lh, columns)(y))
            + (RowEnergies(w.hl, columns)(y) + RowEnergies(w.hh, columns)(y))
  {
    var w := Dwt2(s, f, 2 * rows, 2 * columns);
    var a, b := SquaresOfRow(f, 2 * y), SquaresOfRow(f, 2 * y + 1);
    forall x | 0 <= x < columns
      ensures Balanced(a, b, SquaresOfRow(w.ll, y), SquaresOfRow(w.lh, y), SquaresOfRow(w.hl, y),
                       SquaresOfRow(w.hh, y), x)
    {
      QuadEnergy(s, f, rows, columns, y, x);
    }
    RowPairPrefix(columns, a, b, SquaresOfRow(w.ll, y), SquaresOfRow(w.lh, y), SquaresOfRow(w.hl, y),
                  SquaresOfRow(w.hh, y));
  }

  /** Two adjacent pairs weigh as much as the four band samples under them. */
  ghost predicate Balanced(a: int -> real, b: int -> real, ll: int -> real, lh: int -> real, hl: int -> real,
                           hh: int -> real, x: int) {
    a(2 * x) + a(2 * x + 1) + (b(2 * x) + b(2 * x + 1)) == (ll(x) + lh(x)) + (hl(x) + hh(x))
  }

  lemma {:induction false} RowPairPrefix(n: nat, a: int -> real, b: int -> real, ll: int -> real, lh: int -> real,
                                         hl: int -> real, hh: int -> real)
    requires forall x :: 0 <= x < n ==> Balanced(a, b, ll, lh, hl, hh, x)
    ensures Sum(2 * n, a) + Sum(2 * n, b) == (Sum(n, ll) + Sum(n, lh)) + (Sum(n, hl) + Sum(n, hh))
  {
    if n > 0 {
      RowPairPrefix(n - 1, a, b, ll, lh, hl, hh);
      assert Balanced(a, b, ll, lh, hl, hh, n - 1);
      LastTwo(n, a);
      LastTwo(n, b);
    }
  }

  lemma LastTwo(n: nat, f: int -> real)
    requires n > 0
    ensures Sum(2 * n, f) == Sum(2 * (n - 1), f) + f(2 * (n - 1)) + f(2 * (n - 1) + 1)
  {
  }
}
