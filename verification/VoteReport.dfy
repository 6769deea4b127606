/** What the fields of a voting decision report beside the identity: the winning
    share, its tiles, and the mean bit error rate of the votes that carried it. */
module VoteReport {
  import opened Numbers
  import opened Collections
  import opened Options
  import opened Voting

  // ----- the mean bit error rate

  function Rated(group: seq<Vote>): nat { |Keep(group, HasRate)| }

  predicate HasRate(v: Vote) { v.bitErrorRate.Some? }

  ghost predicate RatesBetween(group: seq<Vote>, low: real, high: real) {
    forall v :: v in group && HasRate(v) ==> low <= v.bitErrorRate.value <= high
  }

  predicate Within(e: (real, nat), low: real, high: real) { e.1 as real * low <= e.0 <= e.1 as real * high }

  lemma NoRate(low: real, high: real)
    ensures Within((0.0, 0), low, high)
  {
  }

  lemma OneRate(e: (real, nat), rate: real, low: real, high: real)
    requires Within(e, low, high) && low <= rate <= high
    ensures Within((e.0 + rate, e.1 + 1), low, high)
  {
    Numbers.OneMore(e.1 + 1, low);
    Numbers.OneMore(e.1 + 1, high);
  }

  lemma {:induction false} ErrorSumBounds(group: seq<Vote>, low: real, high: real)
    requires RatesBetween(group, low, high)
    ensures Within(ErrorSum(group), low, high)
  {
    if group == [] {
      NoRate(low, high);
    } else {
      var front, last := group[..|group| - 1], group[|group| - 1];
      assert group == front + [last];
      ErrorSumBounds(front, low, high);
      if HasRate(last) { OneRate(ErrorSum(front), last.bitErrorRate.value, low, high); }
    }
  }

  lemma {:induction false} RatedIsCount(group: seq<Vote>)
    ensures ErrorSum(group).1 == Rated(group)
  {
    if group != [] {
      var front, last := group[..|group| - 1], group[|group| - 1];
      assert group == front + [last];
      KeepMore(front, last, HasRate);
      RatedIsCount(front);
    }
  }

  lemma Average(sum: real, n: nat, bound: real)
    requires n > 0
    ensures sum / n as real >= bound <==> sum >= n as real * bound
    ensures sum / n as real <= bound <==> sum <= n as real * bound
  {
    var q := sum / n as real;
    assert q * n as real == sum;
    ScaleOrder(q, bound, n as real);
    ScaleOrder(bound, q, n as real);
  }

  /** The mean is missing exactly when no vote has a rate, and lies between any
      two bounds of the rates there are. */
  lemma MeanErrorBounds(group: seq<Vote>, low: real, high: real)
    requires RatesBetween(group, low, high)
    ensures MeanError(group).None? <==> forall v :: v in group ==> !HasRate(v)
    ensures MeanError(group).Some? ==> low <= MeanError(group).value <= high
  {
    ErrorSumBounds(group, low, high);
    RatedIsCount(group);
    KeepCount(group, HasRate);
    var (sum, n) := ErrorSum(group);
    if n > 0 {
      Average(sum, n, low);
      Average(sum, n, high);
    }
  }

  lemma {:induction false} ErrorSumMoves(group: seq<Vote>, i: nat, rate: real)
    requires i < |group| && HasRate(group[i])
    ensures var (sum, n) := ErrorSum(group);
            var (sum', n') := ErrorSum(group[i := group[i].(bitErrorRate := Some(rate))]);
            n' == n > 0 && sum' == sum + (rate - group[i].bitErrorRate.value)
  {
    var moved := group[i := group[i].(bitErrorRate := Some(rate))];
    var front := group[..|group| - 1];
    if i < |front| {
      ErrorSumMoves(front, i, rate);
      assert moved[..|group| - 1] == front[i := front[i].(bitErrorRate := Some(rate))];
    } else {
      assert moved[..|group| - 1] == front;
    }
  }

  /** Moving one vote's rate by d moves the mean by d over the number of rates. */
  lemma MeanErrorMoves(group: seq<Vote>, i: nat, rate: real)
    requires i < |group| && HasRate(group[i])
    ensures var moved := group[i := group[i].(bitErrorRate := Some(rate))];
            && MeanError(group).Some? && MeanError(moved).Some? && Rated(group) > 0
            && (MeanError(moved).value - MeanError(group).value) * Rated(group) as real
               == rate - group[i].bitErrorRate.value
  {
    ErrorSumMoves(group, i, rate);
    RatedIsCount(group);
    var moved := group[i := group[i].(bitErrorRate := Some(rate))];
    var (sum, n) := ErrorSum(group);
    var (sum', n') := ErrorSum(moved);
    assert sum / n as real * n as real == sum && sum' / n as real * n as real == sum';
  }

  // ----- the decision's fields

  /** The share of its repetitions that voted for a key, by tiles. */
  function TileShare(votes: seq<Vote>, repetitions: Repetitions, k: Key): real {
    if k.candidate in repetitions && repetitions[k.candidate] > 0
    then |Tiles(votes, k)| as real / repetitions[k.candidate] as real
    else 0.0
  }

  lemma BackingByTiles(votes: seq<Vote>, repetitions: Repetitions, k: Key)
    requires Known(votes, repetitions) && k in Keys(votes)
    ensures Backing(votes, repetitions)(k) == Measure(TileShare(votes, repetitions, k), |Tiles(votes, k)|)
  {
    OneVotePerTile(votes, k);
    var v := KeyVoted(votes, k);
  }

  lemma {:induction false} SupportingVoted(votes: seq<Vote>, k: Key, v: Vote)
    requires v in Supporting(votes, k)
    ensures v in votes && KeyOf(v) == k
  {
    var front, last := votes[..|votes| - 1], votes[|votes| - 1];
    assert votes == front + [last];
    if v in Supporting(front, k) { SupportingVoted(front, k, v); }
  }

  /** Vote i is the first for its key from its tile. */
  predicate FirstFor(votes: seq<Vote>, k: Key, i: int) {
    && 0 <= i < |votes| && KeyOf(votes[i]) == k
    && forall j :: 0 <= j < i ==> KeyOf(votes[j]) != k || votes[j].tile != votes[i].tile
  }

  lemma {:induction false} SupportingHas(votes: seq<Vote>, k: Key, t: nat)
    ensures HasTile(Supporting(votes, k), t) <==>
            exists i :: 0 <= i < |votes| && KeyOf(votes[i]) == k && votes[i].tile == t
  {
    if votes != [] {
      var front, last := votes[..|votes| - 1], votes[|votes| - 1];
      SupportingHas(front, k, t);
      SupportingOneMore(front, last, k);
      HasTileOfOneMore(Supporting(front, k), last, t);
      assert votes == front + [last];
      assert forall i :: 0 <= i < |front| ==> votes[i] == front[i];
    }
  }

  /** Of several votes from one tile for one key the first is kept. */
  lemma {:induction false} SupportingFirst(votes: seq<Vote>, k: Key, v: Vote) returns (i: nat)
    requires v in Supporting(votes, k)
    ensures FirstFor(votes, k, i) && votes[i] == v
  {
    var front, last := votes[..|votes| - 1], votes[|votes| - 1];
    assert votes == front + [last];
    if v in Supporting(front, k) {
      i := SupportingFirst(front, k, v);
    } else {
      i := |front|;
      SupportingHas(front, k, last.tile);
      assert forall j :: 0 <= j < |front| ==> votes[j] == front[j];
    }
  }

  /** The decision reports a key with the largest share of its tiles: no key has
      a larger one, nor an equal one on more tiles. The reported rate lies
      between the rates voted for that key, and the status follows from the
      reported numbers and the identities observed. */
  lemma ReportMeaning(votes: seq<Vote>, repetitions: Repetitions, geometryConfidence: real, low: real, high: real)
    returns (k: Key)
    requires Known(votes, repetitions) && votes != []
    ensures var d := Decide(votes, repetitions, geometryConfidence);
            var observed := Issuances(votes);
            && k in Keys(votes) && d.confidence == TileShare(votes, repetitions, k)
            && d.validVotes == |Tiles(votes, k)| > 0
            && (forall j :: j in Keys(votes) ==>
                  && TileShare(votes, repetitions, j) <= d.confidence
                  && (TileShare(votes, repetitions, j) == d.confidence ==> |Tiles(votes, j)| <= d.validVotes))
            && (d.status == Conflicting <==> |observed| > 1)
            && (d.status == Decoded <==> |observed| <= 1 && d.validVotes >= 2 && d.confidence >= SUPPORT_THRESHOLD)
            && d.status != NotDetected && (d.identity == if d.status == Decoded then Some(k.issuance) else None)
            && (d.bitErrorRate.Some? && (forall v :: v in votes && KeyOf(v) == k && HasRate(v) ==>
                                           low <= v.bitErrorRate.value <= high)
                ==> low <= d.bitErrorRate.value <= high)
  {
    VotedKeys(votes);
    k := Winner(votes, repetitions);
    StrongestIsMax(Keys(votes), Backing(votes, repetitions));
    BackingByTiles(votes, repetitions, k);
    OneVotePerTile(votes, k);
    KeyHasTile(votes, k);
    forall j | j in Keys(votes)
      ensures TileShare(votes, repetitions, j) <= TileShare(votes, repetitions, k)
      ensures TileShare(votes, repetitions, j) == TileShare(votes, repetitions, k) ==>
                |Tiles(votes, j)| <= |Tiles(votes, k)|
    {
      BackingByTiles(votes, repetitions, j);
    }
    if forall v :: v in votes && KeyOf(v) == k && HasRate(v) ==> low <= v.bitErrorRate.value <= high {
      forall v | v in Supporting(votes, k) ensures v in votes && KeyOf(v) == k { SupportingVoted(votes, k, v); }
      MeanErrorBounds(Supporting(votes, k), low, high);
    }
  }

  /** Without votes the decision only passes the geometry confidence on. */
  lemma NothingReported(votes: seq<Vote>, repetitions: Repetitions, geometryConfidence: real)
    requires Known(votes, repetitions)
    ensures Decide(votes, repetitions, geometryConfidence).status == NotDetected <==> votes == []
    ensures votes == [] ==> Decide(votes, repetitions, geometryConfidence).confidence == geometryConfidence
  {
    VotedKeys(votes);
  }
}
