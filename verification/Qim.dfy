/** Parity quantization-index modulation of one coefficient pair. */
module Qim {
  import opened Numbers

  datatype Extraction = Extraction(bit: int, lattice: int, confidence: real)

  /** The lattice point of the requested parity the difference is moved to. */
  function Target(difference: real, bit: int, delta: real): int
    requires delta > 0.0
  {
    var lattice := Round(difference / delta);
    if lattice % 2 == bit then lattice else lattice + 1
  }

  function Correction(difference: real, bit: int, delta: real): real
    requires delta > 0.0
  {
    (Target(difference, bit, delta) as real * delta - difference) / 2.0
  }

  function EmbedPair(a: real, b: real, bit: int, delta: real): (real, real)
    requires delta > 0.0
  {
    var correction := Correction(a - b, bit, delta);
    (a + correction, b - correction)
  }

  function ExtractPair(a: real, b: real, delta: real): Extraction
    requires delta > 0.0
  {
    var normalized := (a - b) / delta;
    var lattice := Round(normalized);
    var distance := Abs(normalized - lattice as real);
    Extraction(lattice % 2, lattice, Max(0.0, Min(1.0, 1.0 - 2.0 * distance)))
  }

  /** The correction is half the way to the target, which is never more than half
      a step below the difference nor more than one and a half above it. */
  lemma CorrectionBound(difference: real, bit: int, delta: real)
    requires delta > 0.0
    ensures -0.25 * delta <= Correction(difference, bit, delta) <= 0.75 * delta
  {
    var q := difference / delta;
    var gap := Target(difference, bit, delta) as real - q;
    assert -0.5 <= gap <= 1.5;
    ScaleOrder(gap, -0.5, delta);
    ScaleOrder(1.5, gap, delta);
    assert -0.5 * delta <= gap * delta <= 1.5 * delta;
    var c := Correction(difference, bit, delta);
    assert gap * delta == 2.0 * c by {
      assert gap * delta == Target(difference, bit, delta) as real * delta - q * delta;
      assert q * delta == difference;
    }
  }

  /** Embedding keeps the pair's sum, lands on the parity lattice and moves the
      difference by at most half a step down or one and a half up. */
  lemma EmbedLands(a: real, b: real, bit: int, delta: real)
    requires delta > 0.0 && bit in {0, 1}
    ensures var (a', b') := EmbedPair(a, b, bit, delta);
            && a' + b' == a + b
            && a' - b' == Target(a - b, bit, delta) as real * delta
            && Target(a - b, bit, delta) % 2 == bit
            && -0.5 * delta <= a' - b' - (a - b) <= 1.5 * delta
            && Abs(a' - a) <= 0.75 * delta && Abs(b' - b) <= 0.75 * delta
  {
    CorrectionBound(a - b, bit, delta);
  }

  /** Error budget: a pair whose difference sits within e*delta of a lattice
      point, e < 1/2, reads back that point's parity with confidence >= 1-2e. */
  lemma ExtractNear(a: real, b: real, t: int, delta: real, e: real)
    requires delta > 0.0 && 0.0 <= e < 0.5
    requires Abs(a - b - t as real * delta) <= e * delta
    ensures var x := ExtractPair(a, b, delta);
            x.lattice == t && x.bit == t % 2 && x.confidence >= 1.0 - 2.0 * e
  {
    var q := (a - b) / delta;
    var r := q - t as real;
    assert q * delta == a - b;
    assert r * delta == a - b - t as real * delta;
    ScaleAbs(r, e, delta);
    RoundNearest(q, t);
  }

  /** The difference is within e steps of lattice point t. */
  predicate Near(difference: real, t: int, delta: real, e: real) { Abs(difference - t as real * delta) <= e * delta }

  /** The confidence says exactly how near the lattice the pair is. */
  lemma ConfidenceExact(a: real, b: real, delta: real, e: real)
    requires delta > 0.0 && 0.0 <= e < 0.5
    ensures var x, difference := ExtractPair(a, b, delta), a - b;
            && x.bit in {0, 1} && 0.0 <= x.confidence <= 1.0
            && (x.confidence >= 1.0 - 2.0 * e <==> exists t :: Near(difference, t, delta, e))
  {
    var x, difference := ExtractPair(a, b, delta), a - b;
    if x.confidence >= 1.0 - 2.0 * e {
      var q := (a - b) / delta;
      var r := q - x.lattice as real;
      assert q * delta == a - b;
      assert r * delta == a - b - x.lattice as real * delta;
      ScaleAbs(r, e, delta);
      assert Near(difference, x.lattice, delta, e);
    }
    if t :| Near(difference, t, delta, e) { ExtractNear(a, b, t, delta, e); }
  }

  lemma EmbedExtract(a: real, b: real, bit: int, delta: real)
    requires delta > 0.0 && bit in {0, 1}
    ensures var (a', b') := EmbedPair(a, b, bit, delta);
            var x := ExtractPair(a', b', delta);
            x.bit == bit && x.confidence == 1.0
  {
    EmbedLands(a, b, bit, delta);
    var (a', b') := EmbedPair(a, b, bit, delta);
    ExtractNear(a', b', Target(a - b, bit, delta), delta, 0.0);
  }

  lemma OnLattice(difference: real, t: int, bit: int, delta: real)
    requires delta > 0.0 && difference == t as real * delta && t % 2 == bit
    ensures Correction(difference, bit, delta) == 0.0
  {
    assert difference / delta == t as real;
    RoundNearest(difference / delta, t);
    assert Target(difference, bit, delta) == t;
  }

  /** Re-embedding the same bit is the identity. */
  lemma EmbedIdempotent(a: real, b: real, bit: int, delta: real)
    requires delta > 0.0 && bit in {0, 1}
    ensures var (a', b') := EmbedPair(a, b, bit, delta);
            EmbedPair(a', b', bit, delta) == (a', b')
  {
    EmbedLands(a, b, bit, delta);
    var (a', b') := EmbedPair(a, b, bit, delta);
    var t := Target(a - b, bit, delta);
    OnLattice(a' - b', t, bit, delta);
  }
}
