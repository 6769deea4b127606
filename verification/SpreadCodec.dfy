/** The saturation-safe spread codec: one direction of change per tile, the
    sign of a mean difference per bit. */
module SpreadCodec {
  import opened Collections
  import opened Numbers
  import opened ErasureRanking
  import opened Codeword
  import opened SpreadChips

  datatype Polarity = Darken | Lighten

  datatype SpreadEvidence = SpreadEvidence(codeword: seq<int>, erasePositions: seq<nat>, meanConfidence: real,
                                           polarity: Polarity, erasureRanking: seq<nat>)

  // ----- embedding

  function Values(s: seq<real>): int -> real { i => if 0 <= i < |s| then s[i] else 0.0 }

  /** Bright tiles are darkened, dark ones lightened. */
  function PolarityOf(samples: seq<real>): Polarity
    requires samples != []
  {
    if Mean(|samples|, Values(samples)) >= 127.5 then Darken else Lighten
  }

  function Moved(sample: real, delta: real, polarity: Polarity): real {
    if polarity == Darken then Max(0.0, sample - delta) else Min(255.0, sample + delta)
  }

  function Active(g: Chips, bit: int): seq<nat> { if bit != 0 then g.b else g.a }

  /** The sample belongs to the active side of one of the first n bits. */
  predicate ActiveBelow(groups: seq<Chips>, codeword: seq<int>, n: nat, x: nat)
    requires n <= |groups| && n <= 8 * |codeword|
  {
    exists i :: 0 <= i < n && x in Active(groups[i], Unpacked(codeword, i))
  }

  predicate IsSpread(host: seq<real>, spread: seq<real>, groups: seq<Chips>, codeword: seq<int>, n: nat, delta: real,
                     polarity: Polarity)
    requires n <= |groups| && n <= 8 * |codeword|
  {
    && |spread| == |host|
    && forall x :: 0 <= x < |host| ==>
         spread[x] == if ActiveBelow(groups, codeword, n, x) then Moved(host[x], delta, polarity) else host[x]
  }

  /** One vectorised update of the samples of a group. */
  method MoveGroup(samples: array<real>, active: seq<nat>, delta: real, polarity: Polarity)
    requires Distinct(active) && forall x :: x in active ==> x < samples.Length
    modifies samples
    ensures forall x :: 0 <= x < samples.Length ==>
              samples[x] == if x in active then Moved(old(samples[x]), delta, polarity) else old(samples[x])
  {
    for k := 0 to |active|
      invariant forall x :: 0 <= x < samples.Length ==>
                  samples[x] == if x in active[..k] then Moved(old(samples[x]), delta, polarity) else old(samples[x])
    {
      assert active[k] in active && active[k] !in active[..k];
      samples[active[k]] := if polarity == Darken then Max(0.0, samples[active[k]] - delta)
                            else Min(255.0, samples[active[k]] + delta);
      assert active[..k + 1] == active[..k] + [active[k]];
    }
    assert active[..|active|] == active;
  }

  lemma NextActive(groups: seq<Chips>, codeword: seq<int>, n: nat, x: nat)
    requires n < |groups| && n < 8 * |codeword|
    ensures ActiveBelow(groups, codeword, n + 1, x) <==>
            ActiveBelow(groups, codeword, n, x) || x in Active(groups[n], Unpacked(codeword, n))
  {
  }

  lemma ActiveOnce(groups: seq<Chips>, samples: nat, codeword: seq<int>, n: nat, x: nat)
    requires GroupsSound(groups, samples) && n < |groups| && n < 8 * |codeword|
    requires x in Active(groups[n], Unpacked(codeword, n))
    ensures !ActiveBelow(groups, codeword, n, x)
  {
    forall i | 0 <= i < n ensures x !in Active(groups[i], Unpacked(codeword, i)) {
      assert !Shares(groups[i], groups[n], x);
    }
  }

  method EmbedSpread(samples: array<real>, codeword: seq<int>, groups: seq<Chips>, delta: real)
    requires IsCodeword(codeword) && |groups| == BITS && GroupsSound(groups, samples.Length)
    requires samples.Length > 0
    modifies samples
    ensures IsSpread(old(samples[..]), samples[..], groups, codeword, BITS, delta, PolarityOf(old(samples[..])))
  {
    ghost var host := samples[..];
    var polarity := PolarityOf(samples[..]);
    for bit := 0 to BITS
      invariant IsSpread(host, samples[..], groups, codeword, bit, delta, polarity)
    {
      ghost var before := samples[..];
      assert GroupSound(groups[bit], samples.Length);
      MoveGroup(samples, Active(groups[bit], Unpacked(codeword, bit)), delta, polarity);
      SpreadOne(host, before, samples[..], groups, samples.Length, codeword, bit, delta, polarity);
    }
  }

  lemma SpreadOne(host: seq<real>, before: seq<real>, after: seq<real>, groups: seq<Chips>, samples: nat,
                  codeword: seq<int>, bit: nat, delta: real, polarity: Polarity)
    requires GroupsSound(groups, samples) && bit < |groups| && bit < 8 * |codeword| && |host| == samples == |after|
    requires IsSpread(host, before, groups, codeword, bit, delta, polarity)
    requires forall x :: 0 <= x < samples ==>
               after[x] == if x in Active(groups[bit], Unpacked(codeword, bit)) then Moved(before[x], delta, polarity)
                           else before[x]
    ensures IsSpread(host, after, groups, codeword, bit + 1, delta, polarity)
  {
    forall x | 0 <= x < samples
      ensures after[x] == if ActiveBelow(groups, codeword, bit + 1, x) then Moved(host[x], delta, polarity) else host[x]
    {
      NextActive(groups, codeword, bit, x);
      if x in Active(groups[bit], Unpacked(codeword, bit)) { ActiveOnce(groups, samples, codeword, bit, x); }
    }
  }

  // ----- extraction

  function Picked(s: seq<real>, g: seq<nat>): int -> real {
    k => if 0 <= k < |g| && g[k] < |s| then s[g[k]] else 0.0
  }

  function GroupMean(s: seq<real>, g: seq<nat>): real
    requires g != []
  {
    Mean(|g|, Picked(s, g))
  }

  function Difference(s: seq<real>, g: Chips): real
    requires g.a != [] && g.b != []
  {
    GroupMean(s, g.a) - GroupMean(s, g.b)
  }

  function ReadBit(difference: real, polarity: Polarity): int {
    if polarity == Darken then (if difference > 0.0 then 1 else 0) else (if difference > 0.0 then 0 else 1)
  }

  function ReadConfidence(difference: real, delta: real): real
    requires delta > 0.0
  {
    Min(1.0, Abs(difference) / delta)
  }

  predicate NonEmpty(groups: seq<Chips>) { forall i :: 0 <= i < |groups| ==> groups[i].a != [] && groups[i].b != [] }

  function Bits(s: seq<real>, groups: seq<Chips>, polarity: Polarity): int -> int
    requires NonEmpty(groups)
  {
    i => if 0 <= i < |groups| then ReadBit(Difference(s, groups[i]), polarity) else 0
  }

  function Confidences(s: seq<real>, groups: seq<Chips>, delta: real): int -> real
    requires NonEmpty(groups) && delta > 0.0
  {
    i => if 0 <= i < |groups| then ReadConfidence(Difference(s, groups[i]), delta) else 0.0
  }

  function EvidenceFrom(e: Evidence, polarity: Polarity): SpreadEvidence {
    SpreadEvidence(e.codeword, e.erasePositions, e.meanConfidence, polarity, e.erasureRanking)
  }

  function Extracted(s: seq<real>, groups: seq<Chips>, delta: real, polarity: Polarity): SpreadEvidence
    requires NonEmpty(groups) && delta > 0.0
  {
    EvidenceFrom(Collect(Bits(s, groups, polarity), Confidences(s, groups, delta), CONFIDENCE_MIN, 0.0), polarity)
  }

  method ExtractSpread(samples: seq<real>, groups: seq<Chips>, delta: real, polarity: Polarity)
    returns (evidence: SpreadEvidence)
    requires |groups| == BITS && NonEmpty(groups) && delta > 0.0
    ensures evidence == Extracted(samples, groups, delta, polarity)
  {
    ghost var bits, confidences := Bits(samples, groups, polarity), Confidences(samples, groups, delta);
    var tally := NewTally(CONFIDENCE_MIN);
    for i := 0 to BITS
      invariant tally.threshold == CONFIDENCE_MIN
      invariant tally.Follows(bits, confidences) && |tally.bits| == i
    {
      var difference := GroupMean(samples, groups[i].a) - GroupMean(samples, groups[i].b);
      var bit := if polarity == Darken then (if difference > 0.0 then 1 else 0)
                 else (if difference > 0.0 then 0 else 1);
      tally := tally.Add(bit, Min(1.0, Abs(difference) / delta), bits, confidences);
    }
    var e := tally.Finish(0.0, bits, confidences);
    evidence := EvidenceFrom(e, polarity);
  }

  // ----- what embedding does to the means

  /** No active sample saturates. */
  ghost predicate Headroom(host: seq<real>, groups: seq<Chips>, codeword: seq<int>, delta: real, polarity: Polarity)
    requires |groups| == BITS && IsCodeword(codeword)
  {
    forall x :: 0 <= x < |host| && ActiveBelow(groups, codeword, BITS, x) ==>
      if polarity == Darken then host[x] >= delta else host[x] + delta <= 255.0
  }

  lemma {:induction false} SumShift(n: nat, f: int -> real, g: int -> real, shift: real)
    requires forall i :: 0 <= i < n ==> g(i) == f(i) + shift
    ensures Sum(n, g) == Sum(n, f) + n as real * shift
  {
    if n > 0 {
      SumShift(n - 1, f, g, shift);
      assert n as real * shift == (n - 1) as real * shift + shift;
    }
  }

  lemma MeanShift(n: nat, f: int -> real, g: int -> real, shift: real)
    requires n > 0 && forall i :: 0 <= i < n ==> g(i) == f(i) + shift
    ensures Mean(n, g) == Mean(n, f) + shift
  {
    SumShift(n, f, g, shift);
    Quotients(Sum(n, f), n, shift);
  }

  lemma Quotients(sum: real, n: nat, shift: real)
    requires n > 0
    ensures (sum + n as real * shift) / n as real == sum / n as real + shift
  {
  }

  function Shift(delta: real, polarity: Polarity): real { if polarity == Darken then -delta else delta }

  lemma ActiveMean(host: seq<real>, spread: seq<real>, groups: seq<Chips>, codeword: seq<int>, delta: real,
                   polarity: Polarity, i: nat)
    requires IsCodeword(codeword) && |groups| == BITS && GroupsSound(groups, |host|) && i < BITS
    requires IsSpread(host, spread, groups, codeword, BITS, delta, polarity)
    requires Headroom(host, groups, codeword, delta, polarity)
    ensures var active := Active(groups[i], Unpacked(codeword, i));
            active != [] && GroupMean(spread, active) == GroupMean(host, active) + Shift(delta, polarity)
  {
    assert GroupSound(groups[i], |host|);
    var active := Active(groups[i], Unpacked(codeword, i));
    forall k | 0 <= k < |active| ensures Picked(spread, active)(k) == Picked(host, active)(k) + Shift(delta, polarity) {
      assert active[k] in active;
      assert ActiveBelow(groups, codeword, BITS, active[k]);
    }
    MeanShift(|active|, Picked(host, active), Picked(spread, active), Shift(delta, polarity));
  }

  function Passive(g: Chips, bit: int): seq<nat> { if bit != 0 then g.a else g.b }

  lemma PassiveUntouched(groups: seq<Chips>, samples: nat, codeword: seq<int>, i: nat, x: nat)
    requires IsCodeword(codeword) && |groups| == BITS && GroupsSound(groups, samples) && i < BITS
    requires x in Passive(groups[i], Unpacked(codeword, i))
    ensures !ActiveBelow(groups, codeword, BITS, x)
  {
    assert GroupSound(groups[i], samples);
    forall j | 0 <= j < BITS ensures x !in Active(groups[j], Unpacked(codeword, j)) {
      if j < i { assert !Shares(groups[j], groups[i], x); }
      if i < j { assert !Shares(groups[i], groups[j], x); }
    }
  }

  lemma PassiveMean(host: seq<real>, spread: seq<real>, groups: seq<Chips>, codeword: seq<int>, delta: real,
                    polarity: Polarity, i: nat)
    requires IsCodeword(codeword) && |groups| == BITS && GroupsSound(groups, |host|) && i < BITS
    requires IsSpread(host, spread, groups, codeword, BITS, delta, polarity)
    ensures var passive := Passive(groups[i], Unpacked(codeword, i));
            passive != [] && GroupMean(spread, passive) == GroupMean(host, passive)
  {
    assert GroupSound(groups[i], |host|);
    var passive := Passive(groups[i], Unpacked(codeword, i));
    forall k | 0 <= k < |passive| ensures Picked(spread, passive)(k) == Picked(host, passive)(k) {
      assert passive[k] in passive;
      PassiveUntouched(groups, |host|, codeword, i, passive[k]);
    }
    SumExt(|passive|, Picked(host, passive), Picked(spread, passive));
  }

  /** The direction in which a bit pushes its group difference. */
  function Push(bit: int, delta: real, polarity: Polarity): real {
    if (bit != 0) == (polarity == Darken) then delta else -delta
  }

  /** Embedding moves every group difference by exactly delta, towards its bit. */
  lemma DifferenceMoves(host: seq<real>, spread: seq<real>, groups: seq<Chips>, codeword: seq<int>, delta: real,
                        polarity: Polarity, i: nat)
    requires IsCodeword(codeword) && |groups| == BITS && GroupsSound(groups, |host|) && i < BITS
    requires IsSpread(host, spread, groups, codeword, BITS, delta, polarity)
    requires Headroom(host, groups, codeword, delta, polarity)
    ensures groups[i].a != [] && groups[i].b != []
    ensures Difference(spread, groups[i]) == Difference(host, groups[i]) + Push(Unpacked(codeword, i), delta, polarity)
  {
    ActiveMean(host, spread, groups, codeword, delta, polarity, i);
    PassiveMean(host, spread, groups, codeword, delta, polarity, i);
  }

  // ----- exactly when the codeword is recovered

  /** The host difference leaves the bit readable. */
  predicate Readable(difference: real, bit: int, delta: real, polarity: Polarity) {
    if (bit != 0) == (polarity == Darken) then difference > -delta else difference <= delta
  }

  lemma ReadMoved(difference: real, bit: int, delta: real, polarity: Polarity)
    requires bit in {0, 1}
    ensures ReadBit(difference + Push(bit, delta, polarity), polarity) == bit
       <==> Readable(difference, bit, delta, polarity)
  {
  }

  lemma SoundNonEmpty(groups: seq<Chips>, samples: nat)
    requires GroupsSound(groups, samples)
    ensures NonEmpty(groups)
  {
    forall i | 0 <= i < |groups| ensures groups[i].a != [] && groups[i].b != [] {
      assert GroupSound(groups[i], samples);
    }
  }

  lemma PackedExactly(codeword: seq<int>, bits: int -> int)
    requires IsCodeword(codeword) && forall i :: 0 <= i < BITS ==> bits(i) in {0, 1}
    ensures PackBits(bits) == codeword <==> forall i :: 0 <= i < BITS ==> bits(i) == Unpacked(codeword, i)
  {
    if PackBits(bits) == codeword {
      forall i | 0 <= i < BITS ensures bits(i) == Unpacked(codeword, i) { UnpackPack(bits, i); }
    } else if forall i :: 0 <= i < BITS ==> bits(i) == Unpacked(codeword, i) {
      PackUnpack(codeword, bits);
    }
  }

  /** Extraction at the embedding polarity returns the codeword exactly when
      every host difference leaves its bit readable. */
  lemma SpreadExact(host: seq<real>, spread: seq<real>, groups: seq<Chips>, codeword: seq<int>, delta: real,
                    polarity: Polarity)
    requires IsCodeword(codeword) && |groups| == BITS && GroupsSound(groups, |host|) && delta > 0.0
    requires IsSpread(host, spread, groups, codeword, BITS, delta, polarity)
    requires Headroom(host, groups, codeword, delta, polarity)
    ensures NonEmpty(groups)
    ensures Extracted(spread, groups, delta, polarity).codeword == codeword <==>
            forall i :: 0 <= i < BITS ==> Readable(Difference(host, groups[i]), Unpacked(codeword, i), delta, polarity)
  {
    SoundNonEmpty(groups, |host|);
    var bits := Bits(spread, groups, polarity);
    PackedExactly(codeword, bits);
    forall i | 0 <= i < BITS
      ensures bits(i) == Unpacked(codeword, i) <==>
              Readable(Difference(host, groups[i]), Unpacked(codeword, i), delta, polarity)
    {
      DifferenceMoves(host, spread, groups, codeword, delta, polarity, i);
      ReadMoved(Difference(host, groups[i]), Unpacked(codeword, i), delta, polarity);
    }
  }

  // ----- the two polarities

  lemma {:induction false} PackedComplement(f: int -> int, g: int -> int, start: int, n: nat)
    requires forall i :: start <= i < start + n ==> f(i) + g(i) == 1
    ensures Packed(f, start, n) + Packed(g, start, n) == Pow2(n) - 1
  {
    if n > 0 { PackedComplement(f, g, start, n - 1); }
  }

  lemma PackComplement(f: int -> int, g: int -> int)
    requires forall i :: 0 <= i < BITS ==> f(i) + g(i) == 1
    ensures forall j :: 0 <= j < BYTES ==> PackBits(f)[j] + PackBits(g)[j] == 255
  {
    forall j | 0 <= j < BYTES ensures PackBits(f)[j] + PackBits(g)[j] == 255 {
      PackedComplement(f, g, 8 * j, 8);
      assert Pow2(8) == 256;
    }
  }

  lemma SameReliability(f: int -> int, g: int -> int, confidence: int -> real, threshold: real)
    ensures var d, l := Collect(f, confidence, threshold, 0.0), Collect(g, confidence, threshold, 0.0);
            && d.erasePositions == l.erasePositions && d.meanConfidence == l.meanConfidence
            && d.erasureRanking == l.erasureRanking
            && d.codeword == PackBits(f) && l.codeword == PackBits(g)
  {
  }

  lemma ExtractedCodeword(samples: seq<real>, groups: seq<Chips>, delta: real, polarity: Polarity)
    requires NonEmpty(groups) && delta > 0.0
    ensures Extracted(samples, groups, delta, polarity).codeword == PackBits(Bits(samples, groups, polarity))
  {
  }

  /** Reading a tile both ways gives complementary codewords. */
  lemma PolarityComplement(samples: seq<real>, groups: seq<Chips>, delta: real, dark: seq<int>, light: seq<int>)
    requires |groups| == BITS && NonEmpty(groups) && delta > 0.0
    requires dark == Extracted(samples, groups, delta, Darken).codeword
    requires light == Extracted(samples, groups, delta, Lighten).codeword
    ensures |dark| == |light| == BYTES && forall j :: 0 <= j < BYTES ==> dark[j] + light[j] == 255
  {
    ExtractedCodeword(samples, groups, delta, Darken);
    ExtractedCodeword(samples, groups, delta, Lighten);
    BitsComplement(samples, groups);
    PackComplement(Bits(samples, groups, Darken), Bits(samples, groups, Lighten));
  }

  lemma ReadComplement(difference: real)
    ensures ReadBit(difference, Darken) + ReadBit(difference, Lighten) == 1
  {
  }

  lemma BitsComplement(samples: seq<real>, groups: seq<Chips>)
    requires |groups| == BITS && NonEmpty(groups)
    ensures forall i :: 0 <= i < BITS ==> Bits(samples, groups, Darken)(i) + Bits(samples, groups, Lighten)(i) == 1
  {
    forall i | 0 <= i < BITS ensures Bits(samples, groups, Darken)(i) + Bits(samples, groups, Lighten)(i) == 1 {
      ReadComplement(Difference(samples, groups[i]));
    }
  }

  /** Both readings are equally confident and erase the same bytes. */
  lemma PolaritiesAgree(samples: seq<real>, groups: seq<Chips>, delta: real)
    requires |groups| == BITS && NonEmpty(groups) && delta > 0.0
    ensures var d, l := Extracted(samples, groups, delta, Darken), Extracted(samples, groups, delta, Lighten);
            && d.erasePositions == l.erasePositions && d.meanConfidence == l.meanConfidence
            && d.erasureRanking == l.erasureRanking
  {
    SameReliability(Bits(samples, groups, Darken), Bits(samples, groups, Lighten), Confidences(samples, groups, delta),
                    CONFIDENCE_MIN);
  }

  // ----- noise

  lemma DivideClose(x: real, y: real, m: real, error: real)
    requires m > 0.0 && Abs(x - y) <= m * error
    ensures Abs(x / m - y / m) <= error
  {
    var p, q := x / m, y / m;
    assert p * m == x && q * m == y;
    ScaleDifference(p, q, m);
    ScaleAbs(p - q, error, m);
  }

  lemma ScaleDifference(p: real, q: real, m: real)
    ensures (p - q) * m == p * m - q * m
  {
  }

  lemma MeanClose(n: nat, f: int -> real, g: int -> real, error: real)
    requires n > 0 && forall i :: 0 <= i < n ==> Abs(g(i) - f(i)) <= error
    ensures Abs(Mean(n, g) - Mean(n, f)) <= error
  {
    SumClose(n, f, g, error);
    DivideClose(Sum(n, g), Sum(n, f), n as real, error);
  }

  ghost predicate Close(s: seq<real>, noisy: seq<real>, error: real) {
    |s| == |noisy| && error >= 0.0 && forall x :: 0 <= x < |s| ==> Abs(noisy[x] - s[x]) <= error
  }

  lemma DifferenceClose(s: seq<real>, noisy: seq<real>, g: Chips, error: real)
    requires Close(s, noisy, error) && g.a != [] && g.b != []
    ensures Abs(Difference(noisy, g) - Difference(s, g)) <= 2.0 * error
  {
    MeanClose(|g.a|, Picked(s, g.a), Picked(noisy, g.a), error);
    MeanClose(|g.b|, Picked(s, g.b), Picked(noisy, g.b), error);
  }

  lemma NoisyBit(host: real, moved: real, noisy: real, bit: int, delta: real, polarity: Polarity, error: real)
    requires bit in {0, 1} && delta > 0.0 && error >= 0.0
    requires moved == host + Push(bit, delta, polarity) && Abs(noisy - moved) <= 2.0 * error
    requires Abs(host) + 2.0 * error < delta
    ensures ReadBit(noisy, polarity) == bit
    ensures Abs(noisy) >= delta - Abs(host) - 2.0 * error
  {
  }

  lemma ConfidentBit(noisy: real, delta: real)
    requires delta > 0.0 && Abs(noisy) >= CONFIDENCE_MIN * delta
    ensures ReadConfidence(noisy, delta) >= CONFIDENCE_MIN
  {
    var q := Abs(noisy) / delta;
    assert q * delta == Abs(noisy);
    ScaleOrder(q, CONFIDENCE_MIN, delta);
  }

  /** A tile whose host differences leave room for the noise keeps its codeword,
      and keeps it unerased when they stay within two fifths of delta. */
  lemma SpreadSurvives(host: seq<real>, spread: seq<real>, noisy: seq<real>, groups: seq<Chips>, codeword: seq<int>,
                       delta: real, polarity: Polarity, margin: real, error: real)
    requires IsCodeword(codeword) && |groups| == BITS && GroupsSound(groups, |host|) && delta > 0.0
    requires IsSpread(host, spread, groups, codeword, BITS, delta, polarity)
    requires Headroom(host, groups, codeword, delta, polarity)
    requires Close(spread, noisy, error) && margin + 2.0 * error < delta && NonEmpty(groups)
    requires forall i :: 0 <= i < BITS ==> Abs(Difference(host, groups[i])) <= margin
    ensures Extracted(noisy, groups, delta, polarity).codeword == codeword
    ensures margin + 2.0 * error <= (1.0 - CONFIDENCE_MIN) * delta ==>
              Extracted(noisy, groups, delta, polarity).erasePositions == []
  {
    var bits, confidences := Bits(noisy, groups, polarity), Confidences(noisy, groups, delta);
    forall i | 0 <= i < BITS
      ensures bits(i) == Unpacked(codeword, i)
      ensures margin + 2.0 * error <= (1.0 - CONFIDENCE_MIN) * delta ==> confidences(i) >= CONFIDENCE_MIN
    {
      DifferenceMoves(host, spread, groups, codeword, delta, polarity, i);
      DifferenceClose(spread, noisy, groups[i], error);
      NoisyBit(Difference(host, groups[i]), Difference(spread, groups[i]), Difference(noisy, groups[i]),
               Unpacked(codeword, i), delta, polarity, error);
      if margin + 2.0 * error <= (1.0 - CONFIDENCE_MIN) * delta { ConfidentBit(Difference(noisy, groups[i]), delta); }
    }
    PackUnpack(codeword, bits);
    if margin + 2.0 * error <= (1.0 - CONFIDENCE_MIN) * delta {
      CollectExact(codeword, bits, confidences, CONFIDENCE_MIN, 0.0, CONFIDENCE_MIN);
    }
  }
}
