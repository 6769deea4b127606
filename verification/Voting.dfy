/** Fail-closed payload voting: the V3 rule and what it guarantees about
    attribution. */
module Voting {
  import Numbers
  import opened Collections
  import opened Options

  const SUPPORT_THRESHOLD := 0.60

  datatype Codec = Dct | SpreadDarken | SpreadLighten

  datatype Vote = Vote(candidate: nat, geometry: seq<real>, tile: nat, codec: Codec, issuance: nat,
                       bitErrorRate: Option<real>)

  datatype Key = Key(candidate: nat, issuance: nat)

  datatype Status = Decoded | Partial | Conflicting | NotDetected

  datatype Decision = Decision(identity: Option<nat>, confidence: real, validVotes: nat, bitErrorRate: Option<real>,
                               status: Status)

  datatype Measure = Measure(support: real, count: nat)

  /** Payload repetitions by candidate identifier. */
  type Repetitions = map<nat, nat>

  function KeyOf(vote: Vote): Key { Key(vote.candidate, vote.issuance) }

  /** Every vote was cast for a supplied candidate. */
  predicate Known(votes: seq<Vote>, repetitions: Repetitions) {
    forall v :: v in votes ==> v.candidate in repetitions && repetitions[v.candidate] > 0
  }

  function MeasureOf(n: nat, candidate: nat, repetitions: Repetitions): Measure
  {
    if candidate in repetitions && repetitions[candidate] > 0
    then Measure(n as real / repetitions[candidate] as real, n)
    else Measure(0.0, 0)
  }

  predicate Better(a: Measure, b: Measure) { a.support > b.support || (a.support == b.support && a.count > b.count) }

  /** Python's `max`: the first of the largest. */
  function Strongest(keys: seq<Key>, measure: Key -> Measure): Key
    requires keys != []
    decreases |keys|
  {
    if |keys| == 1 then keys[0]
    else
      var front := Strongest(keys[..|keys| - 1], measure);
      if Better(measure(keys[|keys| - 1]), measure(front)) then keys[|keys| - 1] else front
  }

  lemma {:induction false} StrongestIsMax(keys: seq<Key>, measure: Key -> Measure)
    requires keys != []
    ensures Strongest(keys, measure) in keys
    ensures forall j :: j in keys ==> !Better(measure(j), measure(Strongest(keys, measure)))
    decreases |keys|
  {
    if |keys| > 1 {
      StrongestIsMax(keys[..|keys| - 1], measure);
      assert keys == keys[..|keys| - 1] + [keys[|keys| - 1]];
    }
  }

  // ----- the V3 rule

  /** Keys in the order of their first vote. */
  function Keys(votes: seq<Vote>): seq<Key> {
    if votes == [] then []
    else
      var front, k := Keys(votes[..|votes| - 1]), KeyOf(votes[|votes| - 1]);
      if k in front then front else front + [k]
  }

  lemma {:induction false} KeysCover(votes: seq<Vote>, v: Vote)
    requires v in votes
    ensures KeyOf(v) in Keys(votes)
  {
    var front := votes[..|votes| - 1];
    assert votes == front + [votes[|votes| - 1]];
    if v in front { KeysCover(front, v); }
  }

  lemma {:induction false} KeyVoted(votes: seq<Vote>, k: Key) returns (v: Vote)
    requires k in Keys(votes)
    ensures v in votes && KeyOf(v) == k
  {
    var front := votes[..|votes| - 1];
    if k in Keys(front) { v := KeyVoted(front, k); } else { v := votes[|votes| - 1]; }
  }

  predicate HasTile(group: seq<Vote>, tile: nat) { exists v :: v in group && v.tile == tile }

  /** The first vote of every tile for one key. */
  function Supporting(votes: seq<Vote>, k: Key): seq<Vote> {
    if votes == [] then []
    else
      var front, last := Supporting(votes[..|votes| - 1], k), votes[|votes| - 1];
      if KeyOf(last) != k || HasTile(front, last.tile) then front else front + [last]
  }

  /** The tiles that voted for a key. */
  function Tiles(votes: seq<Vote>, k: Key): set<nat> { set v | v in votes && KeyOf(v) == k :: v.tile }

  function Issuances(votes: seq<Vote>): set<nat> { set v | v in votes :: v.issuance }

  function Backing(votes: seq<Vote>, repetitions: Repetitions): Key -> Measure {
    (k: Key) => MeasureOf(|Supporting(votes, k)|, k.candidate, repetitions)
  }

  function ErrorSum(group: seq<Vote>): (e: (real, nat)) {
    if group == [] then (0.0, 0)
    else
      var (sum, n) := ErrorSum(group[..|group| - 1]);
      match group[|group| - 1].bitErrorRate
      case None => (sum, n)
      case Some(rate) => (sum + rate, n + 1)
  }

  function MeanError(group: seq<Vote>): Option<real> {
    var (sum, n) := ErrorSum(group);
    if n == 0 then None else Some(sum / n as real)
  }

  predicate Quorate(m: Measure) { m.count >= 2 && m.support >= SUPPORT_THRESHOLD }

  function Decide(votes: seq<Vote>, repetitions: Repetitions, geometryConfidence: real): Decision {
    if Keys(votes) == [] then Decision(None, geometryConfidence, 0, None, NotDetected)
    else
      var k := Strongest(Keys(votes), Backing(votes, repetitions));
      var m := Backing(votes, repetitions)(k);
      var status := if |Issuances(votes)| > 1 then Conflicting else if Quorate(m) then Decoded else Partial;
      Decision(if status == Decoded then Some(k.issuance) else None, m.support, |Supporting(votes, k)|,
               MeanError(Supporting(votes, k)), status)
  }

  function Found<K(==), V>(entries: map<K, seq<V>>, k: K): seq<V> { if k in entries then entries[k] else [] }

  /** The insertion-ordered dictionary of dictionaries: keys in order of
      insertion, each with the votes of its distinct tiles in order. */
  ghost predicate Grouped(votes: seq<Vote>, keys: seq<Key>, byIdentity: map<Key, seq<Vote>>) {
    && keys == Keys(votes)
    && forall k :: (k in byIdentity <==> k in keys) && Found(byIdentity, k) == Supporting(votes, k)
  }

  lemma NoSupport(votes: seq<Vote>, k: Key)
    ensures k !in Keys(votes) ==> Supporting(votes, k) == []
  {
    if votes != [] { NoSupport(votes[..|votes| - 1], k); }
  }

  lemma GroupOne(votes: seq<Vote>, vote: Vote, keys: seq<Key>, byIdentity: map<Key, seq<Vote>>, group: seq<Vote>)
    requires Grouped(votes, keys, byIdentity)
    requires group == Found(byIdentity, KeyOf(vote))
    ensures Grouped(votes + [vote], if KeyOf(vote) in keys then keys else keys + [KeyOf(vote)],
                    byIdentity[KeyOf(vote) := if HasTile(group, vote.tile) then group else group + [vote]])
  {
    NoSupport(votes, KeyOf(vote));
    assert (votes + [vote])[..|votes|] == votes;
  }

  lemma ObserveOne(votes: seq<Vote>, vote: Vote)
    ensures Issuances(votes + [vote]) == Issuances(votes) + {vote.issuance}
  {
  }

  method GroupVotes(votes: seq<Vote>) returns (keys: seq<Key>, byIdentity: map<Key, seq<Vote>>, observed: set<nat>)
    ensures Grouped(votes, keys, byIdentity) && observed == Issuances(votes)
  {
    keys, byIdentity, observed := [], map[], {};
    for i := 0 to |votes|
      invariant Grouped(votes[..i], keys, byIdentity)
      invariant observed == Issuances(votes[..i])
    {
      var vote := votes[i];
      assert votes[..i + 1] == votes[..i] + [vote];
      ObserveOne(votes[..i], vote);
      observed := observed + {vote.issuance};
      var group := Found(byIdentity, KeyOf(vote));
      GroupOne(votes[..i], vote, keys, byIdentity, group);
      keys := if KeyOf(vote) in byIdentity then keys else keys + [KeyOf(vote)];
      byIdentity := byIdentity[KeyOf(vote) := if HasTile(group, vote.tile) then group else group + [vote]];
    }
    assert votes[..|votes|] == votes;
  }

  method FirstStrongest(groups: seq<Key>, supporting: map<Key, seq<Vote>>, repetitions: Repetitions,
                        ghost measure: Key -> Measure)
    returns (strongest: Key)
    requires groups != [] && forall k :: measure(k) == MeasureOf(|Found(supporting, k)|, k.candidate, repetitions)
    ensures strongest == Strongest(groups, measure)
  {
    strongest := groups[0];
    for i := 1 to |groups|
      invariant strongest == Strongest(groups[..i], measure)
    {
      assert groups[..i + 1][..i] == groups[..i];
      var m := MeasureOf(|Found(supporting, groups[i])|, groups[i].candidate, repetitions);
      var best := MeasureOf(|Found(supporting, strongest)|, strongest.candidate, repetitions);
      if Better(m, best) { strongest := groups[i]; }
    }
    assert groups[..|groups|] == groups;
  }

  lemma WinnerKnown(votes: seq<Vote>, repetitions: Repetitions)
    requires Known(votes, repetitions) && Keys(votes) != []
    ensures var c := Strongest(Keys(votes), Backing(votes, repetitions)).candidate;
            c in repetitions && repetitions[c] > 0
  {
    StrongestIsMax(Keys(votes), Backing(votes, repetitions));
    var v := KeyVoted(votes, Strongest(Keys(votes), Backing(votes, repetitions)));
  }

  method DecidePayloadVotes(votes: seq<Vote>, repetitions: Repetitions, geometryConfidence: real)
    returns (decision: Decision)
    requires Known(votes, repetitions)
    ensures decision == Decide(votes, repetitions, geometryConfidence)
  {
    var keys, byIdentity, observed := GroupVotes(votes);
    if keys == [] { return Decision(None, geometryConfidence, 0, None, NotDetected); }
    var k := FirstStrongest(keys, byIdentity, repetitions, Backing(votes, repetitions));
    var supporting := Found(byIdentity, k);
    WinnerKnown(votes, repetitions);
    var support := |supporting| as real / repetitions[k.candidate] as real;
    var status := if |observed| > 1 then Conflicting
                  else if |supporting| >= 2 && support >= SUPPORT_THRESHOLD then Decoded
                  else Partial;
    decision := Decision(if status == Decoded then Some(k.issuance) else None, support, |supporting|,
                         MeanError(supporting), status);
  }

  // ----- votes as evidence

  datatype Fact = Fact(candidate: nat, issuance: nat, tile: nat)

  /** What a vote list establishes once order, geometry, codec, repeats and
      error rates are forgotten. */
  function Established(votes: seq<Vote>): set<Fact> { set v | v in votes :: Fact(v.candidate, v.issuance, v.tile) }

  lemma TilesOfOneMore(front: seq<Vote>, last: Vote, k: Key)
    ensures Tiles(front + [last], k) == if KeyOf(last) == k then Tiles(front, k) + {last.tile} else Tiles(front, k)
  {
    assert forall v :: v in front + [last] <==> v in front || v == last;
  }

  lemma HasTileOfOneMore(group: seq<Vote>, last: Vote, t: nat)
    ensures HasTile(group + [last], t) <==> HasTile(group, t) || t == last.tile
  {
    if t == last.tile { assert last in group + [last]; }
  }

  lemma SupportingOneMore(front: seq<Vote>, last: Vote, k: Key)
    ensures Supporting(front + [last], k) ==
            if KeyOf(last) != k || HasTile(Supporting(front, k), last.tile) then Supporting(front, k)
            else Supporting(front, k) + [last]
  {
    assert (front + [last])[..|front|] == front;
  }

  lemma {:induction false} SupportingTile(votes: seq<Vote>, k: Key, t: nat)
    ensures HasTile(Supporting(votes, k), t) <==> t in Tiles(votes, k)
  {
    if votes != [] {
      var front, last := votes[..|votes| - 1], votes[|votes| - 1];
      assert votes == front + [last];
      SupportingTile(front, k, t);
      SupportingTile(front, k, last.tile);
      SupportingOneMore(front, last, k);
      TilesOfOneMore(front, last, k);
      HasTileOfOneMore(Supporting(front, k), last, t);
    }
  }

  lemma SizesOneMore(front: seq<Vote>, last: Vote, k: Key)
    requires |Supporting(front, k)| == |Tiles(front, k)|
    ensures |Supporting(front + [last], k)| == |Tiles(front + [last], k)|
  {
    SupportingTile(front, k, last.tile);
    SupportingOneMore(front, last, k);
    TilesOfOneMore(front, last, k);
    AddOne(Tiles(front, k), last.tile);
  }

  lemma {:induction false} OneVotePerTile(votes: seq<Vote>, k: Key)
    ensures |Supporting(votes, k)| == |Tiles(votes, k)|
  {
    if votes != [] {
      var front, last := votes[..|votes| - 1], votes[|votes| - 1];
      OneVotePerTile(front, k);
      SizesOneMore(front, last, k);
      assert votes == front + [last];
    }
  }

  lemma EvidenceOfTile(votes: seq<Vote>, k: Key, t: nat)
    ensures t in Tiles(votes, k) <==> Fact(k.candidate, k.issuance, t) in Established(votes)
  {
  }

  lemma KeyHasTile(votes: seq<Vote>, k: Key)
    ensures k in Keys(votes) <==> Tiles(votes, k) != {}
  {
    if k in Keys(votes) {
      var v := KeyVoted(votes, k);
      assert v.tile in Tiles(votes, k);
    }
    if Tiles(votes, k) != {} {
      var t :| t in Tiles(votes, k);
      var v :| v in votes && KeyOf(v) == k && v.tile == t;
      KeysCover(votes, v);
    }
  }

  /** What is established decides every measure and the set of keys. */
  lemma SameBacking(a: seq<Vote>, b: seq<Vote>, repetitions: Repetitions, k: Key)
    requires Established(a) == Established(b)
    ensures Backing(a, repetitions)(k) == Backing(b, repetitions)(k)
    ensures |Supporting(a, k)| == |Supporting(b, k)|
    ensures k in Keys(a) <==> k in Keys(b)
  {
    forall t: nat ensures t in Tiles(a, k) <==> t in Tiles(b, k) {
      EvidenceOfTile(a, k, t);
      EvidenceOfTile(b, k, t);
    }
    assert Tiles(a, k) == Tiles(b, k);
    OneVotePerTile(a, k);
    OneVotePerTile(b, k);
    KeyHasTile(a, k);
    KeyHasTile(b, k);
  }

  lemma IssuanceOfFact(votes: seq<Vote>, u: nat)
    ensures u in Issuances(votes) <==> exists f :: f in Established(votes) && f.issuance == u
  {
    if u in Issuances(votes) {
      var v :| v in votes && v.issuance == u;
      assert Fact(v.candidate, v.issuance, v.tile) in Established(votes);
    }
  }

  lemma SameIssuances(a: seq<Vote>, b: seq<Vote>)
    requires Established(a) == Established(b)
    ensures Issuances(a) == Issuances(b)
  {
    forall u ensures u in Issuances(a) <==> u in Issuances(b) {
      IssuanceOfFact(a, u);
      IssuanceOfFact(b, u);
    }
  }

  ghost predicate Unanimous(votes: seq<Vote>, u: nat) { forall v :: v in votes ==> v.issuance == u }

  lemma OneIssuance(votes: seq<Vote>, u: nat)
    requires u in Issuances(votes)
    ensures |Issuances(votes)| <= 1 <==> Unanimous(votes, u)
  {
    if |Issuances(votes)| <= 1 {
      SubsetSize({u}, Issuances(votes));
      forall v | v in votes ensures v.issuance == u {
        assert v.issuance in Issuances(votes);
        if v.issuance != u { SubsetSize({u, v.issuance}, Issuances(votes)); }
      }
    } else {
      if Unanimous(votes, u) { SubsetSize(Issuances(votes), {u}); }
    }
  }

  function Winner(votes: seq<Vote>, repetitions: Repetitions): Key
    requires Keys(votes) != []
  {
    Strongest(Keys(votes), Backing(votes, repetitions))
  }

  lemma SameWinningMeasure(a: seq<Vote>, b: seq<Vote>, repetitions: Repetitions)
    requires Established(a) == Established(b) && Known(a, repetitions) && Known(b, repetitions)
    requires Keys(a) != [] && Keys(b) != []
    ensures Backing(a, repetitions)(Winner(a, repetitions)) == Backing(b, repetitions)(Winner(b, repetitions))
    ensures |Supporting(a, Winner(a, repetitions))| == |Supporting(b, Winner(b, repetitions))|
  {
    var k, j := Winner(a, repetitions), Winner(b, repetitions);
    StrongestIsMax(Keys(a), Backing(a, repetitions));
    StrongestIsMax(Keys(b), Backing(b, repetitions));
    SameBacking(a, b, repetitions, k);
    SameBacking(a, b, repetitions, j);
    WinnerKnown(a, repetitions);
    WinnerKnown(b, repetitions);
  }

  lemma WinnerVoted(votes: seq<Vote>, repetitions: Repetitions)
    requires Keys(votes) != []
    ensures Winner(votes, repetitions).issuance in Issuances(votes)
  {
    StrongestIsMax(Keys(votes), Backing(votes, repetitions));
    var v := KeyVoted(votes, Winner(votes, repetitions));
  }

  lemma SameWinningIssuance(a: seq<Vote>, b: seq<Vote>, repetitions: Repetitions)
    requires Established(a) == Established(b) && Keys(a) != [] && Keys(b) != [] && |Issuances(a)| <= 1
    ensures Winner(a, repetitions).issuance == Winner(b, repetitions).issuance
  {
    WinnerVoted(a, repetitions);
    WinnerVoted(b, repetitions);
    SameIssuances(a, b);
    var u, w := Winner(a, repetitions).issuance, Winner(b, repetitions).issuance;
    if u != w { SubsetSize({u, w}, Issuances(a)); }
  }

  lemma SameEmptiness(a: seq<Vote>, b: seq<Vote>, repetitions: Repetitions)
    requires Established(a) == Established(b)
    ensures Keys(a) == [] ==> Keys(b) == []
  {
    if Keys(b) != [] { SameBacking(a, b, repetitions, Keys(b)[0]); }
  }

  /** Reordering, duplicating or re-deriving votes through other geometries or
      codecs changes no verdict. */
  lemma OnlyEvidenceMatters(a: seq<Vote>, b: seq<Vote>, repetitions: Repetitions, geometryConfidence: real)
    requires Established(a) == Established(b) && Known(a, repetitions) && Known(b, repetitions)
    ensures var d, e := Decide(a, repetitions, geometryConfidence), Decide(b, repetitions, geometryConfidence);
            && d.identity == e.identity && d.confidence == e.confidence
            && d.validVotes == e.validVotes && d.status == e.status
  {
    SameEmptiness(a, b, repetitions);
    SameEmptiness(b, a, repetitions);
    SameIssuances(a, b);
    if Keys(a) != [] {
      SameWinningMeasure(a, b, repetitions);
      if |Issuances(a)| <= 1 { SameWinningIssuance(a, b, repetitions); }
    }
  }

  // ----- attribution

  /** Enough of a candidate's tiles voted for u. */
  ghost predicate Carried(votes: seq<Vote>, repetitions: Repetitions, c: nat, u: nat) {
    Key(c, u) in Keys(votes) && Quorate(Backing(votes, repetitions)(Key(c, u)))
  }

  ghost predicate Full(votes: seq<Vote>, repetitions: Repetitions, c: nat, u: nat) {
    Backing(votes, repetitions)(Key(c, u)).support >= 1.0
  }

  /** Tile ordinals count the repetitions of their candidate. */
  ghost predicate InRange(votes: seq<Vote>, repetitions: Repetitions) {
    Known(votes, repetitions) && forall v :: v in votes ==> v.tile < repetitions[v.candidate]
  }

  /** No vote comes from a candidate that is embedded only once. */
  ghost predicate Repeated(votes: seq<Vote>, repetitions: Repetitions) {
    forall v :: v in votes ==> v.candidate in repetitions && repetitions[v.candidate] >= 2
  }

  lemma Share(n: nat, r: nat)
    requires r > 0
    ensures n as real / r as real >= 1.0 <==> n >= r
    ensures r >= 2 && n as real / r as real >= SUPPORT_THRESHOLD ==> n >= 2
  {
    Numbers.ScaleOrder(n as real / r as real, 1.0, r as real);
    Numbers.ScaleOrder(n as real / r as real, SUPPORT_THRESHOLD, r as real);
  }

  lemma TilesBounded(votes: seq<Vote>, repetitions: Repetitions, k: Key)
    requires InRange(votes, repetitions) && k in Keys(votes)
    ensures k.candidate in repetitions && 0 < |Supporting(votes, k)| <= repetitions[k.candidate]
  {
    var v := KeyVoted(votes, k);
    OneVotePerTile(votes, k);
    KeyHasTile(votes, k);
    CountMembers(repetitions[k.candidate], Tiles(votes, k));
  }

  lemma WinnerBeats(votes: seq<Vote>, repetitions: Repetitions, j: Key)
    requires Known(votes, repetitions) && j in Keys(votes)
    ensures var k := Winner(votes, repetitions);
            && k in Keys(votes) && k.candidate in repetitions && repetitions[k.candidate] > 0
            && (Repeated(votes, repetitions) ==> repetitions[k.candidate] >= 2)
            && !Better(Backing(votes, repetitions)(j), Backing(votes, repetitions)(k))
  {
    StrongestIsMax(Keys(votes), Backing(votes, repetitions));
    var v := KeyVoted(votes, Winner(votes, repetitions));
  }

  lemma OutranksQuorum(n: nat, r: nat, quorum: Measure)
    requires r > 0 && Quorate(quorum) && !Better(quorum, Measure(n as real / r as real, n))
    requires r >= 2 || (quorum.support >= 1.0 && n <= r)
    ensures Quorate(Measure(n as real / r as real, n))
  {
    Share(n, r);
  }

  /** The strongest group meets the quorum when some group does, unless a
      candidate embedded once outranks it. */
  lemma QuorumWins(votes: seq<Vote>, repetitions: Repetitions, c: nat, u: nat)
    requires Known(votes, repetitions) && Carried(votes, repetitions, c, u)
    requires Repeated(votes, repetitions) || (InRange(votes, repetitions) && Full(votes, repetitions, c, u))
    ensures Quorate(Backing(votes, repetitions)(Winner(votes, repetitions)))
  {
    var k := Winner(votes, repetitions);
    WinnerBeats(votes, repetitions, Key(c, u));
    if !Repeated(votes, repetitions) { TilesBounded(votes, repetitions, k); }
    OutranksQuorum(|Supporting(votes, k)|, repetitions[k.candidate], Backing(votes, repetitions)(Key(c, u)));
  }

  /** A vote for a candidate embedded once fills it. */
  lemma SingleFills(votes: seq<Vote>, repetitions: Repetitions, v: Vote)
    requires InRange(votes, repetitions) && v in votes && repetitions[v.candidate] == 1
    ensures Backing(votes, repetitions)(KeyOf(v)).support >= 1.0
  {
    KeysCover(votes, v);
    TilesBounded(votes, repetitions, KeyOf(v));
    Share(|Supporting(votes, KeyOf(v))|, 1);
  }

  lemma IdentityMeansQuorum(votes: seq<Vote>, repetitions: Repetitions, geometryConfidence: real, u: nat)
    requires Known(votes, repetitions)
    ensures Decide(votes, repetitions, geometryConfidence).identity == Some(u) <==>
            && Keys(votes) != [] && Unanimous(votes, u)
            && Quorate(Backing(votes, repetitions)(Winner(votes, repetitions)))
  {
    if Keys(votes) != [] {
      WinnerVoted(votes, repetitions);
      var w := Winner(votes, repetitions).issuance;
      OneIssuance(votes, w);
      if Unanimous(votes, u) { assert w == u; }
    }
  }

  /** Attribution characterised for every repetition count: all votes name the
      identity and some candidate carries it - in every tile, when a
      candidate embedded only once has voted. */
  lemma Attribution(votes: seq<Vote>, repetitions: Repetitions, geometryConfidence: real, u: nat)
    requires InRange(votes, repetitions)
    ensures Decide(votes, repetitions, geometryConfidence).identity == Some(u) <==>
            && Unanimous(votes, u)
            && exists c :: Carried(votes, repetitions, c, u)
                           && (Full(votes, repetitions, c, u) || Repeated(votes, repetitions))
  {
    IdentityMeansQuorum(votes, repetitions, geometryConfidence, u);
    if Decide(votes, repetitions, geometryConfidence).identity == Some(u) {
      var k := Winner(votes, repetitions);
      StrongestIsMax(Keys(votes), Backing(votes, repetitions));
      var voted := KeyVoted(votes, k);
      assert Carried(votes, repetitions, k.candidate, u);
      if !Repeated(votes, repetitions) {
        var v :| v in votes && repetitions[v.candidate] < 2;
        SingleFills(votes, repetitions, v);
        KeysCover(votes, v);
      }
    } else if c: nat :| Carried(votes, repetitions, c, u)
                         && (Full(votes, repetitions, c, u) || Repeated(votes, repetitions)) {
      QuorumWins(votes, repetitions, c, u);
    }
  }

  lemma VotedKeys(votes: seq<Vote>)
    ensures Keys(votes) == [] <==> votes == []
  {
  }

  // ----- more evidence

  lemma MoreBacking(a: seq<Vote>, b: seq<Vote>, repetitions: Repetitions, k: Key)
    requires Established(a) <= Established(b) && k in Keys(a)
    ensures k in Keys(b) && |Supporting(a, k)| <= |Supporting(b, k)|
  {
    forall t: nat | t in Tiles(a, k) ensures t in Tiles(b, k) {
      EvidenceOfTile(a, k, t);
      EvidenceOfTile(b, k, t);
    }
    OneVotePerTile(a, k);
    OneVotePerTile(b, k);
    KeyHasTile(a, k);
    KeyHasTile(b, k);
    SubsetSize(Tiles(a, k), Tiles(b, k));
  }

  lemma Division(n: nat, m: nat, r: nat)
    requires n <= m && r > 0
    ensures n as real / r as real <= m as real / r as real
  {
    Numbers.ScaleOrder(m as real / r as real, n as real / r as real, r as real);
  }

  /** Evidence is monotone: more of it never lowers the confidence, and an
      attributed page stays attributed exactly as long as nothing contradicts
      it. */
  lemma MoreEvidence(a: seq<Vote>, b: seq<Vote>, repetitions: Repetitions, geometryConfidence: real, u: nat)
    requires Established(a) <= Established(b) && Known(a, repetitions) && Repeated(b, repetitions) && a != []
    ensures Decide(b, repetitions, geometryConfidence).confidence
         >= Decide(a, repetitions, geometryConfidence).confidence
    ensures Decide(a, repetitions, geometryConfidence).identity == Some(u) ==>
              (Decide(b, repetitions, geometryConfidence).identity == Some(u) <==> Unanimous(b, u))
  {
    VotedKeys(a);
    var k := Winner(a, repetitions);
    StrongestIsMax(Keys(a), Backing(a, repetitions));
    MoreBacking(a, b, repetitions, k);
    WinnerBeats(b, repetitions, k);
    WinnerKnown(a, repetitions);
    Division(|Supporting(a, k)|, |Supporting(b, k)|, repetitions[k.candidate]);
    IdentityMeansQuorum(a, repetitions, geometryConfidence, u);
    IdentityMeansQuorum(b, repetitions, geometryConfidence, u);
    if Decide(a, repetitions, geometryConfidence).identity == Some(u) {
      assert Carried(b, repetitions, k.candidate, k.issuance);
      QuorumWins(b, repetitions, k.candidate, k.issuance);
    }
  }

  /** The verdict is a conflict exactly when two votes disagree, however
      outnumbered one of them is. */
  lemma ConflictingEvidence(votes: seq<Vote>, repetitions: Repetitions, geometryConfidence: real)
    ensures Decide(votes, repetitions, geometryConfidence).status == Conflicting <==>
            exists v, w :: v in votes && w in votes && v.issuance != w.issuance
  {
    VotedKeys(votes);
    if votes != [] {
      var u := votes[0].issuance;
      OneIssuance(votes, u);
      if !Unanimous(votes, u) {
        var v :| v in votes && v.issuance != u;
        assert votes[0] in votes;
      }
    }
  }

  /** Three tiles out of five and one tile out of one, all for one identity. */
  function MaskedVotes(rate: Option<real>): seq<Vote> {
    [Vote(0, [], 0, Dct, 7, rate), Vote(0, [], 1, Dct, 7, rate), Vote(0, [], 2, Dct, 7, rate),
     Vote(1, [], 0, Dct, 7, rate)]
  }

  lemma MaskedTiles(rate: Option<real>, k: Key)
    ensures Tiles(MaskedVotes(rate), k) == if k == Key(0, 7) then {0, 1, 2} else if k == Key(1, 7) then {0} else {}
  {
    var votes := MaskedVotes(rate);
    assert votes == [] + [votes[0]] + [votes[1]] + [votes[2]] + [votes[3]];
    TilesOfOneMore([], votes[0], k);
    TilesOfOneMore([] + [votes[0]], votes[1], k);
    TilesOfOneMore([] + [votes[0]] + [votes[1]], votes[2], k);
    TilesOfOneMore([] + [votes[0]] + [votes[1]] + [votes[2]], votes[3], k);
  }

  lemma MaskedSupport(rate: Option<real>, k: Key)
    ensures |Supporting(MaskedVotes(rate), k)| == if k == Key(0, 7) then 3 else if k == Key(1, 7) then 1 else 0
    ensures k in Keys(MaskedVotes(rate)) <==> k == Key(0, 7) || k == Key(1, 7)
  {
    MaskedTiles(rate, k);
    OneVotePerTile(MaskedVotes(rate), k);
    KeyHasTile(MaskedVotes(rate), k);
  }

  lemma NoQuorum(votes: seq<Vote>, repetitions: Repetitions, geometryConfidence: real)
    requires Keys(votes) != [] && !Quorate(Backing(votes, repetitions)(Winner(votes, repetitions)))
    ensures Decide(votes, repetitions, geometryConfidence).identity == None
  {
  }

  lemma MaskedMeasures(repetitions: Repetitions)
    requires repetitions == map[0 := 5, 1 := 1]
    ensures MeasureOf(3, 0, repetitions) == Measure(0.6, 3) && MeasureOf(1, 1, repetitions) == Measure(1.0, 1)
  {
  }

  /** A candidate embedded once can mask another candidate's quorum. This is a
      property of the rule: every frozen profile embeds three or five times, and
      the decoder takes no other. */
  lemma SingleRepetitionMasks(rate: Option<real>, repetitions: Repetitions, geometryConfidence: real)
    requires repetitions == map[0 := 5, 1 := 1]
    ensures InRange(MaskedVotes(rate), repetitions) && Unanimous(MaskedVotes(rate), 7)
    ensures Carried(MaskedVotes(rate), repetitions, 0, 7)
    ensures Decide(MaskedVotes(rate), repetitions, geometryConfidence).identity == None
  {
    MaskedInRange(rate, repetitions);
    MaskedSupport(rate, Key(0, 7));
    MaskedSupport(rate, Key(1, 7));
    MaskedMeasures(repetitions);
    WinnerBeats(MaskedVotes(rate), repetitions, Key(1, 7));
    MaskedSupport(rate, Winner(MaskedVotes(rate), repetitions));
    NoQuorum(MaskedVotes(rate), repetitions, geometryConfidence);
  }

  lemma MaskedInRange(rate: Option<real>, repetitions: Repetitions)
    requires repetitions == map[0 := 5, 1 := 1]
    ensures InRange(MaskedVotes(rate), repetitions) && Unanimous(MaskedVotes(rate), 7)
  {
  }
}
