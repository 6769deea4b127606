/** The 39-byte codeword, its big-endian bits, and the evidence a tile yields. */
module Codeword {
  import opened Numbers
  import opened ErasureRanking

  const BYTES: nat := 39
  const BITS: nat := 312

  // Weaker bits erase their byte.
  const CONFIDENCE_MIN: real := 0.60

  predicate IsCodeword(codeword: seq<int>) {
    |codeword| == BYTES && forall i :: 0 <= i < BYTES ==> 0 <= codeword[i] < 256
  }

  /** Digit k of an n-digit binary number, the most significant digit first. */
  function Digit(x: int, n: nat, k: nat): (bit: int)
    requires k < n
    ensures bit in {0, 1}
    decreases n, x
  {
    if k == n - 1 then x % 2 else Digit(x / 2, n - 1, k)
  }

  /** np.unpackbits with big bit order. */
  function Unpacked(codeword: seq<int>, i: nat): (bit: int)
    requires i < 8 * |codeword|
    ensures bit in {0, 1}
  {
    Digit(codeword[i / 8], 8, i % 8)
  }

  /** The number whose n digits are the bits from `start` on. */
  function Packed(bits: int -> int, start: int, n: nat): int
    decreases n, bits
  {
    if n == 0 then 0 else 2 * Packed(bits, start, n - 1) + bits(start + n - 1)
  }

  /** np.packbits with big bit order. */
  function PackBits(bits: int -> int): (codeword: seq<int>)
    ensures |codeword| == BYTES
  {
    seq(BYTES, j => Packed(bits, 8 * j, 8))
  }

  lemma {:induction false} PackDigits(x: int, bits: int -> int, start: int, n: nat)
    requires 0 <= x < Pow2(n)
    requires forall i :: start <= i < start + n ==> bits(i) == Digit(x, n, i - start)
    ensures Packed(bits, start, n) == x
    decreases n
  {
    if n > 0 {
      PackDigits(x / 2, bits, start, n - 1);
      assert bits(start + n - 1) == Digit(x, n, n - 1);
    }
  }

  lemma {:induction false} DigitOfPacked(bits: int -> int, start: int, n: nat, k: nat)
    requires k < n && forall i :: start <= i < start + n ==> bits(i) in {0, 1}
    ensures Digit(Packed(bits, start, n), n, k) == bits(start + k)
    decreases n
  {
    var x := Packed(bits, start, n);
    assert bits(start + n - 1) in {0, 1};
    assert x / 2 == Packed(bits, start, n - 1) && x % 2 == bits(start + n - 1);
    if k < n - 1 { DigitOfPacked(bits, start, n - 1, k); }
  }

  lemma {:induction false} SamePacked(f: int -> int, g: int -> int, start: int, n: nat)
    requires forall i :: start <= i < start + n ==> f(i) == g(i)
    ensures Packed(f, start, n) == Packed(g, start, n)
  {
    if n > 0 { SamePacked(f, g, start, n - 1); }
  }

  lemma PackSame(f: int -> int, g: int -> int)
    requires forall i :: 0 <= i < BITS ==> f(i) == g(i)
    ensures PackBits(f) == PackBits(g)
  {
    forall j | 0 <= j < BYTES ensures Packed(f, 8 * j, 8) == Packed(g, 8 * j, 8) {
      SamePacked(f, g, 8 * j, 8);
    }
  }

  /** Packing inverts unpacking. */
  lemma PackUnpack(codeword: seq<int>, bits: int -> int)
    requires IsCodeword(codeword)
    requires forall i :: 0 <= i < BITS ==> bits(i) == Unpacked(codeword, i)
    ensures PackBits(bits) == codeword
  {
    forall j | 0 <= j < BYTES ensures Packed(bits, 8 * j, 8) == codeword[j] {
      forall i | 8 * j <= i < 8 * j + 8 ensures bits(i) == Digit(codeword[j], 8, i - 8 * j) {
        assert i / 8 == j && i % 8 == i - 8 * j;
      }
      assert Pow2(8) == 256;
      PackDigits(codeword[j], bits, 8 * j, 8);
    }
  }

  /** Unpacking inverts packing. */
  lemma UnpackPack(bits: int -> int, i: nat)
    requires i < BITS && forall k :: 0 <= k < BITS ==> bits(k) in {0, 1}
    ensures Unpacked(PackBits(bits), i) == bits(i)
  {
    DigitOfPacked(bits, 8 * (i / 8), 8, i % 8);
  }

  datatype Evidence = Evidence(
    codeword: seq<int>,
    erasePositions: seq<nat>,
    meanConfidence: real,
    bitErrorHint: real,
    erasureRanking: seq<nat>)

  function MinOf(confidence: int -> real, start: int, n: nat): real
    requires n > 0
    decreases n, confidence
  {
    if n == 1 then confidence(start) else Min(MinOf(confidence, start, n - 1), confidence(start + n - 1))
  }

  /** Each byte is as reliable as its weakest bit. */
  function ByteConfidence(confidence: int -> real): (c: seq<real>)
    ensures |c| == BYTES
  {
    seq(BYTES, j => MinOf(confidence, 8 * j, 8))
  }

  function Mean(n: nat, f: int -> real): real
    requires n > 0
  {
    Sum(n, f) / n as real
  }

  /** Evidence from winning bits, their confidences and the disagreement rate. */
  function Collect(bits: int -> int, confidence: int -> real, threshold: real, hint: real): Evidence {
    var bytes := ByteConfidence(confidence);
    Evidence(PackBits(bits), Weak(bytes, threshold, BYTES), Mean(8 * |bytes|, confidence), hint,
             RankErasureCandidates(bytes))
  }

  lemma {:induction false} MinAtLeast(confidence: int -> real, start: int, n: nat, bound: real)
    requires n > 0
    ensures MinOf(confidence, start, n) >= bound <==> forall k :: start <= k < start + n ==> confidence(k) >= bound
  {
    if n > 1 { MinAtLeast(confidence, start, n - 1, bound); }
  }

  /** A byte is erased exactly when one of its bits is below the threshold. */
  lemma ErasedExactly(bits: int -> int, confidence: int -> real, threshold: real, hint: real, j: nat)
    requires j < BYTES
    ensures j in Collect(bits, confidence, threshold, hint).erasePositions
       <==> exists k :: 8 * j <= k < 8 * j + 8 && confidence(k) < threshold
  {
    MinAtLeast(confidence, 8 * j, 8, threshold);
    WeakMember(ByteConfidence(confidence), threshold, BYTES, j);
  }

  /** Correct bits above the threshold give back the codeword unerased. */
  lemma CollectExact(codeword: seq<int>, bits: int -> int, confidence: int -> real, threshold: real, hint: real,
                     bound: real)
    requires IsCodeword(codeword) && bound >= threshold
    requires forall i :: 0 <= i < BITS ==> bits(i) == Unpacked(codeword, i) && confidence(i) >= bound
    ensures var e := Collect(bits, confidence, threshold, hint);
            e.codeword == codeword && e.erasePositions == [] && e.meanConfidence >= bound
  {
    PackUnpack(codeword, bits);
    var bytes := ByteConfidence(confidence);
    forall j | 0 <= j < BYTES ensures bytes[j] >= threshold {
      MinAtLeast(confidence, 8 * j, 8, threshold);
    }
    NoneWeak(bytes, threshold, BYTES);
    MeanAtLeast(8 * |bytes|, confidence, bound);
  }

  lemma MeanAtLeast(n: nat, f: int -> real, bound: real)
    requires n > 0 && forall i :: 0 <= i < n ==> f(i) >= bound
    ensures Mean(n, f) >= bound
  {
    SumAtLeast(n, f, bound);
    assert Mean(n, f) * n as real == Sum(n, f);
    ScaleLess(Mean(n, f), bound, n);
  }

  lemma ScaleLess(x: real, y: real, n: nat)
    requires n > 0
    ensures x < y <==> n as real * x < n as real * y
  {
  }

  lemma MeanAtMost(n: nat, f: int -> real, bound: real)
    requires n > 0 && forall i :: 0 <= i < n ==> f(i) <= bound
    ensures Mean(n, f) <= bound
  {
    SumAtMost(n, f, bound);
    assert Mean(n, f) * n as real == Sum(n, f);
    ScaleLess(bound, Mean(n, f), n);
  }

  lemma MeanBelow(n: nat, f: int -> real, bound: real)
    requires n > 0 && forall i :: 0 <= i < n ==> f(i) < bound
    ensures Mean(n, f) < bound
  {
    SumBelow(n, f, bound);
    assert Mean(n, f) * n as real == Sum(n, f);
    ScaleLess(Mean(n, f), bound, n);
  }

  /** How many of the first n bits belong to byte j, for a byte begun. */
  function SeenOf(j: nat, n: nat): (seen: nat)
    requires j < (n + 7) / 8
    ensures seen > 0
  {
    if 8 * j + 8 <= n then 8 else n - 8 * j
  }

  lemma NextBit(n: nat)
    ensures n % 8 == 0 ==> (n + 7) / 8 == n / 8 && (n + 8) / 8 == n / 8 + 1
    ensures n % 8 != 0 ==> (n + 7) / 8 == n / 8 + 1 == (n + 8) / 8
    ensures SeenOf(n / 8, n + 1) == n % 8 + 1
    ensures n % 8 != 0 ==> SeenOf(n / 8, n) == n % 8
    ensures forall j: nat :: j < n / 8 ==> SeenOf(j, n) == 8 == SeenOf(j, n + 1)
  {
  }

  /** The running state of an extraction loop: one bit at a time. */
  datatype Tally = Tally(threshold: real, bits: seq<int>, weakest: seq<real>, erasures: set<nat>, confidenceSum: real) {

    /** This tally has seen exactly the first |bits| values of two sequences. */
    ghost predicate Follows(bit: int -> int, confidence: int -> real) {
      && (forall i :: 0 <= i < |bits| ==> bits[i] == bit(i))
      && confidenceSum == Sum(|bits|, confidence)
      && WeakestOf(confidence, |bits|)
    }

    ghost predicate WeakestOf(confidence: int -> real, n: nat) {
      && |weakest| == (n + 7) / 8
      && (forall j :: 0 <= j < |weakest| ==> weakest[j] == MinOf(confidence, 8 * j, SeenOf(j, n)))
      && (forall j :: j in erasures <==> 0 <= j < |weakest| && weakest[j] < threshold)
    }

    method Add(value: int, weight: real, ghost bit: int -> int, ghost confidence: int -> real) returns (next: Tally)
      requires Follows(bit, confidence) && value == bit(|bits|) && weight == confidence(|bits|)
      ensures next.Follows(bit, confidence) && |next.bits| == |bits| + 1 && next.threshold == threshold
    {
      next := Weaken(weight, confidence);
      next := next.(bits := bits + [value], confidenceSum := confidenceSum + weight);
    }

    method Weaken(weight: real, ghost confidence: int -> real) returns (next: Tally)
      requires WeakestOf(confidence, |bits|) && weight == confidence(|bits|)
      ensures next.WeakestOf(confidence, |bits| + 1)
      ensures next == this.(weakest := next.weakest, erasures := next.erasures)
    {
      var byte := |bits| / 8;
      NextBit(|bits|);
      if |bits| % 8 == 0 {
        next := this.(weakest := weakest + [weight]);
        assert next.weakest[byte] == MinOf(confidence, 8 * byte, 1);
      } else {
        next := this.(weakest := weakest[byte := Min(weakest[byte], weight)]);
        assert next.weakest[byte] == MinOf(confidence, 8 * byte, |bits| % 8 + 1);
      }
      if weight < threshold { next := next.(erasures := erasures + {byte}); }
    }

    method Finish(hint: real, ghost bit: int -> int, ghost confidence: int -> real) returns (evidence: Evidence)
      requires Follows(bit, confidence) && |bits| == BITS
      ensures evidence == Collect(bit, confidence, threshold, hint)
    {
      var read := bits;
      var positions := [];
      assert weakest == ByteConfidence(confidence);
      for j := 0 to BYTES
        invariant positions == Weak(weakest, threshold, j)
      {
        if j in erasures { positions := positions + [j]; }
      }
      var codeword := PackBits(i => if 0 <= i < |read| then read[i] else 0);
      PackSame(i => if 0 <= i < |read| then read[i] else 0, bit);
      evidence := Evidence(codeword, positions, confidenceSum / (8 * |weakest|) as real, hint,
                           RankErasureCandidates(weakest));
    }
  }

  function NewTally(threshold: real): (t: Tally)
    ensures forall bit, confidence :: t.Follows(bit, confidence)
  {
    Tally(threshold, [], [], {}, 0.0)
  }
}
