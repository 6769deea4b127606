/** Codeword bytes ordered from least to most reliable, ties by position. */
module ErasureRanking {
  import opened Collections

  /** Byte i precedes byte j: smaller confidence, then smaller position. */
  predicate Before(confidence: seq<real>, i: nat, j: nat)
    requires i < |confidence| && j < |confidence|
  {
    confidence[i] < confidence[j] || (confidence[i] == confidence[j] && i < j)
  }

  predicate Positions(confidence: seq<real>, order: seq<nat>) {
    forall k :: 0 <= k < |order| ==> order[k] < |confidence|
  }

  ghost predicate Ranked(confidence: seq<real>, order: seq<nat>)
    requires Positions(confidence, order)
  {
    forall j, k :: 0 <= j < k < |order| ==> Before(confidence, order[j], order[k])
  }

  function Insert(confidence: seq<real>, i: nat, order: seq<nat>): (r: seq<nat>)
    requires i < |confidence| && Positions(confidence, order)
    ensures Positions(confidence, r) && |r| == |order| + 1
  {
    if order == [] then [i]
    else if Before(confidence, i, order[0]) then [i] + order
    else [order[0]] + Insert(confidence, i, order[1..])
  }

  function RankPrefix(confidence: seq<real>, n: nat): (order: seq<nat>)
    requires n <= |confidence|
    ensures Positions(confidence, order) && |order| == n
    decreases n, confidence
  {
    if n == 0 then [] else Insert(confidence, n - 1, RankPrefix(confidence, n - 1))
  }

  /** A stable ascending argsort of the confidences. */
  function RankErasureCandidates(confidence: seq<real>): (order: seq<nat>)
    ensures Positions(confidence, order) && |order| == |confidence|
  {
    RankPrefix(confidence, |confidence|)
  }

  lemma {:induction false} InsertMember(confidence: seq<real>, i: nat, order: seq<nat>, x: nat)
    requires i < |confidence| && Positions(confidence, order)
    ensures x in Insert(confidence, i, order) <==> x == i || x in order
  {
    if order != [] && !Before(confidence, i, order[0]) {
      InsertMember(confidence, i, order[1..], x);
      assert order == [order[0]] + order[1..];
    }
  }

  lemma {:induction false} InsertRanked(confidence: seq<real>, i: nat, order: seq<nat>)
    requires i < |confidence| && Positions(confidence, order) && Ranked(confidence, order) && i !in order
    ensures Ranked(confidence, Insert(confidence, i, order))
  {
    if order != [] && !Before(confidence, i, order[0]) {
      var rest := Insert(confidence, i, order[1..]);
      InsertRanked(confidence, i, order[1..]);
      forall k | 0 <= k < |rest| ensures Before(confidence, order[0], rest[k]) {
        assert rest[k] in rest;
        InsertMember(confidence, i, order[1..], rest[k]);
      }
    }
  }

  lemma {:induction false} RankPrefixRanks(confidence: seq<real>, n: nat)
    requires n <= |confidence|
    ensures Ranked(confidence, RankPrefix(confidence, n))
    ensures forall i :: i in RankPrefix(confidence, n) <==> 0 <= i < n
    decreases n
  {
    if n > 0 {
      RankPrefixRanks(confidence, n - 1);
      var front := RankPrefix(confidence, n - 1);
      InsertRanked(confidence, n - 1, front);
      forall i: nat ensures i in RankPrefix(confidence, n) <==> i < n { InsertMember(confidence, n - 1, front, i); }
    }
  }

  /** The ranking is a permutation of the positions, least reliable first. */
  lemma RankingSound(confidence: seq<real>)
    ensures Ranked(confidence, RankErasureCandidates(confidence))
    ensures forall i :: i in RankErasureCandidates(confidence) <==> 0 <= i < |confidence|
  {
    RankPrefixRanks(confidence, |confidence|);
  }

  /** The ranking is the one order by confidence, least first, in which equal
      bytes keep their positions. */
  lemma RankingOrder(confidence: seq<real>, j: nat, k: nat)
    requires j < k < |confidence|
    ensures var order := RankErasureCandidates(confidence);
            && confidence[order[j]] <= confidence[order[k]]
            && (confidence[order[j]] == confidence[order[k]] ==> order[j] < order[k])
  {
    RankingSound(confidence);
    var order := RankErasureCandidates(confidence);
    assert Before(confidence, order[j], order[k]);
  }

  /** Positions below n whose confidence is below a threshold, ascending. */
  function Weak(confidence: seq<real>, threshold: real, n: nat): (w: seq<nat>)
    requires n <= |confidence|
    decreases n, confidence
  {
    if n == 0 then []
    else Weak(confidence, threshold, n - 1) + if confidence[n - 1] < threshold then [n - 1] else []
  }

  lemma {:induction false} WeakMember(confidence: seq<real>, threshold: real, n: nat, i: nat)
    requires n <= |confidence|
    ensures i in Weak(confidence, threshold, n) <==> i < n && confidence[i] < threshold
    decreases n
  {
    if n > 0 { WeakMember(confidence, threshold, n - 1, i); }
  }

  lemma {:induction false} WeakAscends(confidence: seq<real>, threshold: real, n: nat)
    requires n <= |confidence|
    ensures forall j, k :: 0 <= j < k < |Weak(confidence, threshold, n)| ==>
              Weak(confidence, threshold, n)[j] < Weak(confidence, threshold, n)[k]
    decreases n
  {
    if n > 0 {
      var front := Weak(confidence, threshold, n - 1);
      WeakAscends(confidence, threshold, n - 1);
      forall j | 0 <= j < |front| ensures front[j] < n - 1 { WeakMember(confidence, threshold, n - 1, front[j]); }
    }
  }

  lemma {:induction false} NoneWeak(confidence: seq<real>, threshold: real, n: nat)
    requires n <= |confidence| && forall i :: 0 <= i < n ==> confidence[i] >= threshold
    ensures Weak(confidence, threshold, n) == []
    decreases n
  {
    if n > 0 { NoneWeak(confidence, threshold, n - 1); }
  }

  /** The weak bytes are exactly a prefix of the ranking. */
  lemma WeakIsRankingPrefix(confidence: seq<real>, threshold: real)
    ensures var w := Weak(confidence, threshold, |confidence|);
            var order := RankErasureCandidates(confidence);
            |w| <= |order| && SetOf(w) == SetOf(order[..|w|])
  {
    var w := Weak(confidence, threshold, |confidence|);
    var order := RankErasureCandidates(confidence);
    RankingSound(confidence);
    WeakAscends(confidence, threshold, |confidence|);
    var k := Boundary(confidence, threshold, order, |order|);
    forall i: nat ensures i in w <==> i in order[..k] {
      WeakMember(confidence, threshold, |confidence|, i);
      if i in order {
        var j :| 0 <= j < |order| && order[j] == i;
        assert j < k ==> order[..k][j] == i;
      }
    }
    assert SetOf(w) == SetOf(order[..k]);
    RankedDistinct(confidence, order[..k]);
    DistinctSize(w);
    DistinctSize(order[..k]);
  }

  lemma RankedDistinct(confidence: seq<real>, order: seq<nat>)
    requires Positions(confidence, order) && Ranked(confidence, order)
    ensures Distinct(order)
  {
    forall j, k | 0 <= j < k < |order| ensures order[j] != order[k] { assert Before(confidence, order[j], order[k]); }
  }

  lemma {:induction false} Boundary(confidence: seq<real>, threshold: real, order: seq<nat>, n: nat)
    returns (k: nat)
    requires Positions(confidence, order) && Ranked(confidence, order) && n <= |order|
    ensures k <= n
    ensures forall j :: 0 <= j < n ==> (confidence[order[j]] < threshold <==> j < k)
  {
    if n == 0 { k := 0; }
    else {
      k := Boundary(confidence, threshold, order, n - 1);
      if n >= 2 { assert Before(confidence, order[n - 2], order[n - 1]); }
      if confidence[order[n - 1]] < threshold { k := n; }
    }
  }
}
