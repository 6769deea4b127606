/** Reed-Solomon framing with interleaved erasure positions, the ladder of
    erasure sets a receiver retries, and the retry loop itself. The field
    decoder is a parameter. */
module ErasureDecoding {
  import opened Collections
  import opened ErasureRanking
  import opened Interleaving
  import opened Options

  const MESSAGE_BYTES: nat := 23
  const PARITY_SYMBOLS: nat := 16
  const CODEWORD_BYTES: nat := MESSAGE_BYTES + PARITY_SYMBOLS
  const INTERLEAVE_DEPTH: nat := 8

  // ----- the erasure ladder

  predicate Sorted(s: seq<nat>) { forall j, k :: 0 <= j < k < |s| ==> s[j] <= s[k] }

  function InsertSorted(x: nat, s: seq<nat>): (r: seq<nat>)
    ensures |r| == |s| + 1
  {
    if s == [] then [x]
    else if x <= s[0] then [x] + s
    else [s[0]] + InsertSorted(x, s[1..])
  }

  function Sort(s: seq<nat>): (r: seq<nat>)
    ensures |r| == |s|
  {
    if s == [] then [] else InsertSorted(s[|s| - 1], Sort(s[..|s| - 1]))
  }

  lemma {:induction false} InsertMultiset(x: nat, s: seq<nat>)
    ensures multiset(InsertSorted(x, s)) == multiset(s) + multiset{x}
  {
    if s != [] && x > s[0] {
      InsertMultiset(x, s[1..]);
      assert s == [s[0]] + s[1..];
    }
  }

  lemma {:induction false} InsertKeepsSorted(x: nat, s: seq<nat>)
    requires Sorted(s)
    ensures Sorted(InsertSorted(x, s))
  {
    if s != [] && x > s[0] {
      var rest := InsertSorted(x, s[1..]);
      InsertKeepsSorted(x, s[1..]);
      InsertMultiset(x, s[1..]);
      forall k | 0 <= k < |rest| ensures s[0] <= rest[k] {
        assert rest[k] in multiset(rest);
        assert rest[k] == x || rest[k] in s[1..];
      }
    }
  }

  /** Sorting sorts, and permutes. */
  lemma {:induction false} SortSorts(s: seq<nat>)
    ensures Sorted(Sort(s)) && multiset(Sort(s)) == multiset(s)
  {
    if s != [] {
      SortSorts(s[..|s| - 1]);
      InsertKeepsSorted(s[|s| - 1], Sort(s[..|s| - 1]));
      InsertMultiset(s[|s| - 1], Sort(s[..|s| - 1]));
      assert s == s[..|s| - 1] + [s[|s| - 1]];
    }
  }

  lemma SortMembers(s: seq<nat>)
    ensures SetOf(Sort(s)) == SetOf(s)
  {
    SortSorts(s);
    forall x ensures x in Sort(s) <==> x in s { assert x in multiset(Sort(s)) <==> x in multiset(s); }
  }

  /** The weakest bytes of one affordable count. */
  function Rung(ranking: seq<nat>, count: nat): seq<seq<nat>> {
    if count <= |ranking| then [Sort(ranking[..count])] else []
  }

  /** Rungs for the budget halved down to zero, largest first. */
  function Rungs(ranking: seq<nat>, budget: nat): seq<seq<nat>>
    decreases budget, ranking
  {
    Rung(ranking, budget) + if budget == 0 then [] else Rungs(ranking, budget / 2)
  }

  /** Drop later repetitions. */
  function Dedupe(attempts: seq<seq<nat>>): seq<seq<nat>> {
    if attempts == [] then []
    else
      var r, last := Dedupe(attempts[..|attempts| - 1]), attempts[|attempts| - 1];
      if last in r then r else r + [last]
  }

  function Ladder(claim: seq<nat>, ranking: seq<nat>, budget: nat): seq<seq<nat>> {
    Dedupe([claim] + Rungs(ranking, budget))
  }

  // ----- building the ladder

  /** The budget halved down to zero. */
  function Halvings(budget: nat): (counts: seq<nat>)
    ensures |counts| > 0
  {
    if budget == 0 then [0] else [budget] + Halvings(budget / 2)
  }

  function RungsOf(ranking: seq<nat>, counts: seq<nat>): seq<seq<nat>> {
    if counts == [] then [] else Rung(ranking, counts[0]) + RungsOf(ranking, counts[1..])
  }

  lemma {:induction false} RungsOfHalvings(ranking: seq<nat>, budget: nat)
    ensures RungsOf(ranking, Halvings(budget)) == Rungs(ranking, budget)
    decreases budget
  {
    var counts := Halvings(budget);
    if budget == 0 {
      assert RungsOf(ranking, counts[1..]) == [];
    } else {
      RungsOfHalvings(ranking, budget / 2);
      assert counts[1..] == Halvings(budget / 2);
    }
  }

  lemma RungStep(ranking: seq<nat>, counts: seq<nat>, i: nat, attempts: seq<seq<nat>>)
    requires i < |counts|
    ensures attempts + RungsOf(ranking, counts[i..])
         == attempts + Rung(ranking, counts[i]) + RungsOf(ranking, counts[i + 1..])
  {
    assert counts[i..][1..] == counts[i + 1..];
  }

  lemma HalvingStep(counts: seq<nat>)
    requires counts != [] && counts[|counts| - 1] > 0
    ensures var last := counts[|counts| - 1];
            && (counts + [last / 2])[..|counts|] == counts
            && counts + Halvings(last / 2) == counts[..|counts| - 1] + Halvings(last)
  {
    var last := counts[|counts| - 1];
    assert counts == counts[..|counts| - 1] + [last];
  }

  method HalvingCounts(budget: nat) returns (counts: seq<nat>)
    ensures counts == Halvings(budget)
  {
    counts := [budget];
    while counts[|counts| - 1] > 0
      invariant counts != []
      invariant counts[..|counts| - 1] + Halvings(counts[|counts| - 1]) == Halvings(budget)
      decreases counts[|counts| - 1]
    {
      HalvingStep(counts);
      counts := counts + [counts[|counts| - 1] / 2];
    }
    assert counts[..|counts| - 1] + [0] == counts;
  }

  method DropRepeats(attempts: seq<seq<nat>>) returns (ordered: seq<seq<nat>>)
    ensures ordered == Dedupe(attempts)
  {
    ordered := [];
    var seen: set<seq<nat>> := {};
    for i := 0 to |attempts|
      invariant ordered == Dedupe(attempts[..i])
      invariant forall a :: a in seen <==> a in ordered
    {
      assert attempts[..i + 1][..i] == attempts[..i];
      if attempts[i] in seen { continue; }
      seen := seen + {attempts[i]};
      ordered := ordered + [attempts[i]];
    }
    assert attempts[..|attempts|] == attempts;
  }

  method ErasureLadder(claim: seq<nat>, ranking: seq<nat>, budget: nat) returns (ordered: seq<seq<nat>>)
    ensures ordered == Ladder(claim, ranking, budget)
  {
    var counts := HalvingCounts(budget);
    RungsOfHalvings(ranking, budget);
    var attempts := [claim];
    for i := 0 to |counts|
      invariant attempts + RungsOf(ranking, counts[i..]) == [claim] + Rungs(ranking, budget)
    {
      RungStep(ranking, counts, i, attempts);
      assert counts[i] > |ranking| ==> attempts + Rung(ranking, counts[i]) == attempts;
      if counts[i] <= |ranking| { attempts := attempts + [Sort(ranking[..counts[i]])]; }
    }
    assert attempts + [] == attempts;
    ordered := DropRepeats(attempts);
  }

  // ----- the shape of the ladder

  lemma {:induction false} DedupeMember(attempts: seq<seq<nat>>, a: seq<nat>)
    ensures a in Dedupe(attempts) <==> a in attempts
  {
    if attempts != [] {
      DedupeMember(attempts[..|attempts| - 1], a);
      assert attempts == attempts[..|attempts| - 1] + [attempts[|attempts| - 1]];
    }
  }

  lemma {:induction false} DedupeDistinct(attempts: seq<seq<nat>>)
    ensures Distinct(Dedupe(attempts))
    ensures attempts != [] ==> Dedupe(attempts) != [] && Dedupe(attempts)[0] == attempts[0]
  {
    if attempts != [] { DedupeDistinct(attempts[..|attempts| - 1]); }
  }

  lemma {:induction false} RungMember(ranking: seq<nat>, budget: nat, a: seq<nat>) returns (c: nat)
    requires a in Rungs(ranking, budget)
    ensures c in Halvings(budget) && c <= budget && c <= |ranking| && a == Sort(ranking[..c])
    decreases budget
  {
    if a in Rung(ranking, budget) { c := budget; } else { c := RungMember(ranking, budget / 2, a); }
  }

  lemma {:induction false} EmptyRung(ranking: seq<nat>, budget: nat)
    ensures [] in Rungs(ranking, budget)
    decreases budget
  {
    if budget == 0 { assert Sort(ranking[..0]) == []; } else { EmptyRung(ranking, budget / 2); }
  }

  lemma LadderMember(claim: seq<nat>, ranking: seq<nat>, budget: nat, a: seq<nat>)
    ensures a in Ladder(claim, ranking, budget) <==> a == claim || a in Rungs(ranking, budget)
  {
    DedupeMember([claim] + Rungs(ranking, budget), a);
  }

  /** Every attempt but the claim fits the budget; the empty set is always
      tried; nothing is tried twice. */
  lemma LadderShape(claim: seq<nat>, ranking: seq<nat>, budget: nat)
    ensures var l := Ladder(claim, ranking, budget);
            && l != [] && l[0] == claim && [] in l && Distinct(l)
            && forall k :: 1 <= k < |l| ==> |l[k]| <= budget
  {
    var l := Ladder(claim, ranking, budget);
    EmptyRung(ranking, budget);
    LadderMember(claim, ranking, budget, []);
    DedupeDistinct([claim] + Rungs(ranking, budget));
    forall k | 1 <= k < |l| ensures |l[k]| <= budget {
      assert l[k] in l && l[k] != l[0];
      LadderMember(claim, ranking, budget, l[k]);
      var c := RungMember(ranking, budget, l[k]);
    }
  }

  // ----- which attempts the ladder makes, and in which order

  lemma {:induction false} RungTried(ranking: seq<nat>, budget: nat, c: nat)
    requires c in Halvings(budget) && c <= |ranking|
    ensures Sort(ranking[..c]) in Rungs(ranking, budget)
    decreases budget
  {
    if c != budget { RungTried(ranking, budget / 2, c); }
  }

  /** The c weakest bytes, in ascending order. */
  predicate Weakest(a: seq<nat>, ranking: seq<nat>, c: nat) { c <= |ranking| && a == Sort(ranking[..c]) }

  /** Besides the claim, exactly the 16, 8, 4, 2, 1 and 0 weakest bytes are
      tried, as far as the ranking reaches. */
  lemma LadderExactly(claim: seq<nat>, ranking: seq<nat>, a: seq<nat>)
    ensures a in Ladder(claim, ranking, PARITY_SYMBOLS)
       <==> a == claim || exists c: nat :: c in {16, 8, 4, 2, 1, 0} && Weakest(a, ranking, c)
  {
    LadderMember(claim, ranking, PARITY_SYMBOLS, a);
    HalvingsOfBudget();
    if a in Rungs(ranking, PARITY_SYMBOLS) {
      var c := RungMember(ranking, PARITY_SYMBOLS, a);
      assert Weakest(a, ranking, c);
    }
    if c: nat :| c in {16, 8, 4, 2, 1, 0} && Weakest(a, ranking, c) { RungTried(ranking, PARITY_SYMBOLS, c); }
  }

  lemma HalvingsOfBudget()
    ensures Halvings(PARITY_SYMBOLS) == [16, 8, 4, 2, 1, 0]
  {
    assert Halvings(1) == [1, 0];
    assert Halvings(2) == [2, 1, 0];
    assert Halvings(4) == [4, 2, 1, 0];
    assert Halvings(8) == [8, 4, 2, 1, 0];
  }

  ghost predicate Shrinks(attempts: seq<seq<nat>>, from: nat) {
    forall j, k :: from <= j < k < |attempts| ==> |attempts[j]| > |attempts[k]|
  }

  lemma {:induction false} RungsShrink(ranking: seq<nat>, budget: nat)
    ensures Shrinks(Rungs(ranking, budget), 0)
    decreases budget
  {
    if budget > 0 {
      var rest := Rungs(ranking, budget / 2);
      RungsShrink(ranking, budget / 2);
      forall k | 0 <= k < |rest| ensures |rest[k]| < budget {
        var c := RungMember(ranking, budget / 2, rest[k]);
      }
    }
  }

  lemma {:induction false} DedupeShrinks(attempts: seq<seq<nat>>)
    requires attempts != [] && Shrinks(attempts, 1)
    ensures Shrinks(Dedupe(attempts), 1)
  {
    var n := |attempts| - 1;
    if n > 0 {
      var front := attempts[..n];
      var kept := Dedupe(front);
      DedupeShrinks(front);
      DedupeDistinct(front);
      forall j | 1 <= j < |kept| ensures |kept[j]| > |attempts[n]| {
        DedupeMember(front, kept[j]);
        var i :| 0 <= i < n && front[i] == kept[j];
        assert kept[j] != kept[0];
      }
    }
  }

  /** After the claim every attempt erases fewer bytes than the one before: with
      the exact membership this leaves one possible ladder. */
  lemma LadderShrinks(claim: seq<nat>, ranking: seq<nat>, budget: nat)
    ensures Shrinks(Ladder(claim, ranking, budget), 1)
  {
    var rungs := Rungs(ranking, budget);
    RungsShrink(ranking, budget);
    DedupeShrinks([claim] + rungs);
  }

  /** The attempt after a claim that is not itself the weakest sixteen bytes. */
  lemma SecondAttempt(claim: seq<nat>, ranking: seq<nat>)
    requires |ranking| >= PARITY_SYMBOLS && claim != Sort(ranking[..PARITY_SYMBOLS])
    ensures var l := Ladder(claim, ranking, PARITY_SYMBOLS);
            |l| >= 2 && l[0] == claim && l[1] == Sort(ranking[..PARITY_SYMBOLS])
  {
    var l, weakest := Ladder(claim, ranking, PARITY_SYMBOLS), Sort(ranking[..PARITY_SYMBOLS]);
    LadderShape(claim, ranking, PARITY_SYMBOLS);
    LadderShrinks(claim, ranking, PARITY_SYMBOLS);
    assert Weakest(weakest, ranking, 16);
    LadderExactly(claim, ranking, weakest);
    var k :| 0 <= k < |l| && l[k] == weakest;
  }

  /** A set of positions that is a prefix of the ranking. */
  predicate RankingPrefix(s: seq<nat>, ranking: seq<nat>) {
    exists k :: 0 <= k <= |ranking| && SetOf(s) == SetOf(ranking[..k])
  }

  lemma PrefixesNest(s: seq<nat>, t: seq<nat>, ranking: seq<nat>)
    requires RankingPrefix(s, ranking) && RankingPrefix(t, ranking)
    ensures SetOf(s) <= SetOf(t) || SetOf(t) <= SetOf(s)
  {
    var j :| 0 <= j <= |ranking| && SetOf(s) == SetOf(ranking[..j]);
    var k :| 0 <= k <= |ranking| && SetOf(t) == SetOf(ranking[..k]);
    PrefixSubset(ranking, j, k);
    PrefixSubset(ranking, k, j);
  }

  lemma PrefixSubset(ranking: seq<nat>, j: nat, k: nat)
    requires j <= k <= |ranking| || k <= j <= |ranking|
    ensures j <= k ==> SetOf(ranking[..j]) <= SetOf(ranking[..k])
  {
    if j <= k {
      forall x | x in ranking[..j] ensures x in ranking[..k] {
        var i :| 0 <= i < j && ranking[..j][i] == x;
        assert ranking[..k][i] == x;
      }
    }
  }

  /** When the claim is a prefix of the ranking, any two attempts are nested. */
  lemma NestedAttempts(claim: seq<nat>, ranking: seq<nat>, budget: nat)
    requires RankingPrefix(claim, ranking)
    ensures var l := Ladder(claim, ranking, budget);
            forall j, k :: 0 <= j < |l| && 0 <= k < |l| ==> SetOf(l[j]) <= SetOf(l[k]) || SetOf(l[k]) <= SetOf(l[j])
  {
    var l := Ladder(claim, ranking, budget);
    forall a | a in l ensures RankingPrefix(a, ranking) {
      LadderMember(claim, ranking, budget, a);
      if a != claim {
        var c := RungMember(ranking, budget, a);
        SortMembers(ranking[..c]);
      }
    }
    forall j, k | 0 <= j < |l| && 0 <= k < |l| ensures SetOf(l[j]) <= SetOf(l[k]) || SetOf(l[k]) <= SetOf(l[j]) {
      assert l[j] in l && l[k] in l;
      PrefixesNest(l[j], l[k], ranking);
    }
  }

  /** For evidence whose claim is its weak bytes, all attempts form a chain
      of prefixes of the reliability ranking. */
  lemma LadderIsChain(confidence: seq<real>, threshold: real, budget: nat)
    ensures var l := Ladder(Weak(confidence, threshold, |confidence|), RankErasureCandidates(confidence), budget);
            forall j, k :: 0 <= j < |l| && 0 <= k < |l| ==> SetOf(l[j]) <= SetOf(l[k]) || SetOf(l[k]) <= SetOf(l[j])
  {
    WeakIsRankingPrefix(confidence, threshold);
    NestedAttempts(Weak(confidence, threshold, |confidence|), RankErasureCandidates(confidence), budget);
  }

  // ----- decoding one attempt

  datatype DecodeError = WrongLength | BadPositions | TooManyErasures | Uncorrectable | WrongPayloadLength

  datatype Decoded = Payload(bytes: seq<int>) | Failed(error: DecodeError)

  /** The field decoder: raw codeword and raw erasure positions. */
  type FieldDecoder = (seq<int>, seq<nat>) -> Option<seq<int>>

  function DecodeWithErasures(rs: FieldDecoder, codeword: seq<int>, positions: seq<nat>): Decoded {
    if |codeword| != CODEWORD_BYTES then Failed(WrongLength)
    else if exists k :: 0 <= k < |positions| && positions[k] >= CODEWORD_BYTES then Failed(BadPositions)
    else if !Distinct(positions) then Failed(BadPositions)
    else if |positions| > PARITY_SYMBOLS then Failed(TooManyErasures)
    else
      match rs(Deinterleaved(codeword, INTERLEAVE_DEPTH), RawErasures(positions, CODEWORD_BYTES, INTERLEAVE_DEPTH))
      case None => Failed(Uncorrectable)
      case Some(bytes) => if |bytes| != MESSAGE_BYTES then Failed(WrongPayloadLength) else Payload(bytes)
  }

  /** The field code's own promise: damage confined to erased positions, up to
      the parity budget, is repaired. */
  ghost predicate CorrectsErasures(rs: FieldDecoder, encode: seq<int> -> seq<int>) {
    forall payload, raw, erased :: CorrectsOne(rs, encode, payload, raw, erased)
  }

  ghost predicate CorrectsOne(rs: FieldDecoder, encode: seq<int> -> seq<int>, payload: seq<int>, raw: seq<int>,
                              erased: seq<nat>) {
    |payload| == MESSAGE_BYTES && |erased| <= PARITY_SYMBOLS && Distinct(erased)
    && |raw| == CODEWORD_BYTES == |encode(payload)|
    && (forall i :: 0 <= i < CODEWORD_BYTES && i !in erased ==> raw[i] == encode(payload)[i])
    ==> rs(raw, erased) == Some(payload)
  }

  /** The interleaved code keeps that promise in interleaved coordinates: any
      damage inside the claimed erasures decodes to the payload. */
  lemma InterleavedErasuresCorrected(rs: FieldDecoder, encode: seq<int> -> seq<int>, payload: seq<int>,
                                     received: seq<int>, positions: seq<nat>)
    requires CorrectsErasures(rs, encode)
    requires |payload| == MESSAGE_BYTES && |encode(payload)| == CODEWORD_BYTES == |received|
    requires |positions| <= PARITY_SYMBOLS && Distinct(positions)
    requires forall k :: 0 <= k < |positions| ==> positions[k] < CODEWORD_BYTES
    requires var sent := Interleave(encode(payload), INTERLEAVE_DEPTH);
             |sent| == CODEWORD_BYTES
             && forall p :: 0 <= p < CODEWORD_BYTES && p !in positions ==> received[p] == sent[p]
    ensures DecodeWithErasures(rs, received, positions) == Payload(payload)
  {
    var raw := Deinterleaved(received, INTERLEAVE_DEPTH);
    var erased := RawErasures(positions, CODEWORD_BYTES, INTERLEAVE_DEPTH);
    ErasuresExact(received, positions, INTERLEAVE_DEPTH);
    forall i | 0 <= i < CODEWORD_BYTES && i !in erased ensures raw[i] == encode(payload)[i] {
      InterleaveMoves(encode(payload), INTERLEAVE_DEPTH, i);
    }
    assert CorrectsOne(rs, encode, payload, raw, erased);
  }

  // ----- retrying

  type Decoder<T> = seq<nat> -> Option<T>

  /** What the first successful attempt decodes to. */
  function FirstSuccess<T>(attempts: seq<seq<nat>>, decode: Decoder<T>): Option<T>
  {
    if attempts == [] then None
    else if decode(attempts[0]).Some? then decode(attempts[0])
    else FirstSuccess(attempts[1..], decode)
  }

  method DecodePayloadVote<T>(claim: seq<nat>, ranking: seq<nat>, decode: Decoder<T>) returns (vote: Option<T>)
    ensures vote == FirstSuccess(Ladder(claim, ranking, PARITY_SYMBOLS), decode)
  {
    var attempts := ErasureLadder(claim, ranking, PARITY_SYMBOLS);
    for i := 0 to |attempts|
      invariant FirstSuccess(attempts[i..], decode) == FirstSuccess(attempts, decode)
    {
      assert attempts[i..][0] == attempts[i] && attempts[i..][1..] == attempts[i + 1..];
      vote := decode(attempts[i]);
      if vote.Some? { return; }
    }
    return None;
  }

  lemma {:induction false} FirstSuccessFound<T>(attempts: seq<seq<nat>>, decode: Decoder<T>)
    ensures FirstSuccess(attempts, decode).None? <==> forall a :: a in attempts ==> decode(a).None?
  {
    if attempts != [] {
      FirstSuccessFound(attempts[1..], decode);
      assert attempts == [attempts[0]] + attempts[1..];
    }
  }

  /** For any decoder the claim decides when it decodes, and nothing is lost:
      the loop fails exactly when the claim, the empty set and every affordable
      rung all fail. */
  lemma ClaimDecides<T>(claim: seq<nat>, ranking: seq<nat>, decode: Decoder<T>)
    ensures var l := Ladder(claim, ranking, PARITY_SYMBOLS);
            && (decode(claim).Some? ==> FirstSuccess(l, decode) == decode(claim))
            && (FirstSuccess(l, decode).None? <==> forall a :: a in l ==> decode(a).None?)
            && (decode([]).Some? ==> FirstSuccess(l, decode).Some?)
  {
    var l := Ladder(claim, ranking, PARITY_SYMBOLS);
    FirstSuccessFound(l, decode);
    LadderShape(claim, ranking, PARITY_SYMBOLS);
  }

  /** Whatever the field decoder would accept, only 39-byte codewords with at
      most sixteen distinct in-range positions are decoded. */
  lemma DecodesExactly(rs: FieldDecoder, codeword: seq<int>, positions: seq<nat>, payload: seq<int>)
    requires |payload| == MESSAGE_BYTES && forall raw, erased :: rs(raw, erased) == Some(payload)
    ensures DecodeWithErasures(rs, codeword, positions) == Payload(payload) <==>
            && |codeword| == CODEWORD_BYTES && |positions| <= PARITY_SYMBOLS && Distinct(positions)
            && forall k :: 0 <= k < |positions| ==> positions[k] < CODEWORD_BYTES
  {
  }
}
