/** The earlier voting rule: one vote per candidate tile, grouped candidate by
    candidate, and its agreement with the V3 rule. */
module VotingV2 {
  import opened Collections
  import opened Options
  import opened Voting

  /** ConflictingProvenance stands for the error raised when one tile of one
      candidate voted in two ways. */
  datatype Outcome = ConflictingProvenance | Settled(decision: Decision)

  /** The earlier rule's vote: no geometry and no codec. */
  datatype TileVote = TileVote(candidate: nat, tile: nat, issuance: nat, bitErrorRate: Option<real>)

  /** The same vote with the fields it does not have left blank. */
  function Lift(v: TileVote): Vote { Vote(v.candidate, [], v.tile, Dct, v.issuance, v.bitErrorRate) }

  function Lifted(votes: seq<TileVote>): seq<Vote> {
    seq(|votes|, i requires 0 <= i < |votes| => Lift(votes[i]))
  }

  predicate SameTile(v: Vote, w: Vote) { v.candidate == w.candidate && v.tile == w.tile }

  ghost predicate Consistent(votes: seq<Vote>) {
    forall v, w :: v in votes && w in votes && SameTile(v, w) ==> v == w
  }

  /** The first occurrence of every vote. */
  function Kept(votes: seq<Vote>): seq<Vote> {
    if votes == [] then []
    else
      var front, last := Kept(votes[..|votes| - 1]), votes[|votes| - 1];
      if last in front then front else front + [last]
  }

  function Candidates(kept: seq<Vote>): seq<nat> {
    if kept == [] then []
    else
      var front, c := Candidates(kept[..|kept| - 1]), kept[|kept| - 1].candidate;
      if c in front then front else front + [c]
  }

  function IssuancesOf(kept: seq<Vote>, c: nat): seq<nat> {
    if kept == [] then []
    else
      var front, last := IssuancesOf(kept[..|kept| - 1], c), kept[|kept| - 1];
      if last.candidate != c || last.issuance in front then front else front + [last.issuance]
  }

  function Members(kept: seq<Vote>, k: Key): seq<Vote> {
    if kept == [] then []
    else
      var front, last := Members(kept[..|kept| - 1], k), kept[|kept| - 1];
      if KeyOf(last) == k then front + [last] else front
  }

  function KeysOf(c: nat, issuances: seq<nat>): seq<Key> {
    if issuances == [] then []
    else KeysOf(c, issuances[..|issuances| - 1]) + [Key(c, issuances[|issuances| - 1])]
  }

  /** The nested dictionaries' keys, candidate by candidate. */
  function GroupKeys(kept: seq<Vote>, candidates: seq<nat>): seq<Key> {
    if candidates == [] then []
    else
      var c := candidates[|candidates| - 1];
      GroupKeys(kept, candidates[..|candidates| - 1]) + KeysOf(c, IssuancesOf(kept, c))
  }

  function Groups(kept: seq<Vote>): seq<Key> { GroupKeys(kept, Candidates(kept)) }

  function Sizes(kept: seq<Vote>, repetitions: Repetitions): Key -> Measure {
    (k: Key) => MeasureOf(|Members(kept, k)|, k.candidate, repetitions)
  }

  function Eligible(groups: seq<Key>, measure: Key -> Measure): seq<Key> {
    if groups == [] then []
    else
      var front, last := Eligible(groups[..|groups| - 1], measure), groups[|groups| - 1];
      if Quorate(measure(last)) then front + [last] else front
  }

  function Report(identity: Option<nat>, kept: seq<Vote>, k: Key, measure: Key -> Measure, status: Status): Decision {
    Decision(identity, measure(k).support, |Members(kept, k)|, MeanError(Members(kept, k)), status)
  }

  ghost function DecideV2(votes: seq<Vote>, repetitions: Repetitions, geometryConfidence: real): Outcome {
    if !Consistent(votes) then ConflictingProvenance
    else
      var kept := Kept(votes);
      var measure := Sizes(kept, repetitions);
      var eligible := Eligible(Groups(kept), measure);
      if Groups(kept) == [] then Settled(Decision(None, geometryConfidence, 0, None, NotDetected))
      else if |Issuances(kept)| != 1 || eligible == []
      then Settled(Report(None, kept, Strongest(Groups(kept), measure), measure, Partial))
      else
        var k := Strongest(eligible, measure);
        Settled(Report(Some(k.issuance), kept, k, measure, Decoded))
  }

  // ----- what the nested grouping contains

  lemma {:induction false} KeptMembers(votes: seq<Vote>, v: Vote)
    ensures v in Kept(votes) <==> v in votes
  {
    if votes != [] {
      KeptMembers(votes[..|votes| - 1], v);
      assert votes == votes[..|votes| - 1] + [votes[|votes| - 1]];
    }
  }

  lemma KeptEvidence(votes: seq<Vote>)
    ensures Established(Kept(votes)) == Established(votes)
  {
    forall v ensures v in Kept(votes) <==> v in votes { KeptMembers(votes, v); }
  }

  lemma {:induction false} KeptDistinct(votes: seq<Vote>)
    ensures Distinct(Kept(votes))
  {
    if votes != [] { KeptDistinct(votes[..|votes| - 1]); }
  }

  ghost predicate OnePerTile(kept: seq<Vote>) {
    forall i, j :: 0 <= i < j < |kept| ==> !SameTile(kept[i], kept[j])
  }

  lemma KeptOnePerTile(votes: seq<Vote>)
    requires Consistent(votes)
    ensures OnePerTile(Kept(votes))
  {
    KeptDistinct(votes);
    var kept := Kept(votes);
    forall i, j | 0 <= i < j < |kept| ensures !SameTile(kept[i], kept[j]) {
      KeptMembers(votes, kept[i]);
      KeptMembers(votes, kept[j]);
    }
  }

  /** Without rival votes per tile the V3 groups are plain filters. */
  lemma {:induction false} MembersAreSupporting(kept: seq<Vote>, k: Key)
    requires OnePerTile(kept)
    ensures Members(kept, k) == Supporting(kept, k)
  {
    if kept != [] {
      var front, last := kept[..|kept| - 1], kept[|kept| - 1];
      MembersAreSupporting(front, k);
      SupportingTile(front, k, last.tile);
    }
  }

  lemma {:induction false} CandidateListed(kept: seq<Vote>, c: nat)
    ensures c in Candidates(kept) <==> exists v :: v in kept && v.candidate == c
  {
    if kept != [] {
      CandidateListed(kept[..|kept| - 1], c);
      assert kept == kept[..|kept| - 1] + [kept[|kept| - 1]];
    }
  }

  lemma {:induction false} IssuanceListed(kept: seq<Vote>, k: Key)
    ensures k.issuance in IssuancesOf(kept, k.candidate) <==> k in Keys(kept)
  {
    if kept != [] { IssuanceListed(kept[..|kept| - 1], k); }
  }

  lemma {:induction false} KeysOfListed(c: nat, issuances: seq<nat>, k: Key)
    ensures k in KeysOf(c, issuances) <==> k.candidate == c && k.issuance in issuances
  {
    if issuances != [] {
      KeysOfListed(c, issuances[..|issuances| - 1], k);
      assert issuances == issuances[..|issuances| - 1] + [issuances[|issuances| - 1]];
    }
  }

  lemma {:induction false} GroupListed(kept: seq<Vote>, candidates: seq<nat>, k: Key)
    ensures k in GroupKeys(kept, candidates) <==>
            k.candidate in candidates && k.issuance in IssuancesOf(kept, k.candidate)
  {
    if candidates != [] {
      var c := candidates[|candidates| - 1];
      GroupListed(kept, candidates[..|candidates| - 1], k);
      KeysOfListed(c, IssuancesOf(kept, c), k);
      assert candidates == candidates[..|candidates| - 1] + [c];
    }
  }

  /** Both groupings have the same keys. */
  lemma SameGroups(kept: seq<Vote>, k: Key)
    ensures k in Groups(kept) <==> k in Keys(kept)
  {
    GroupListed(kept, Candidates(kept), k);
    IssuanceListed(kept, k);
    CandidateListed(kept, k.candidate);
    if k in Keys(kept) { var v := KeyVoted(kept, k); }
  }

  lemma {:induction false} EligibleListed(groups: seq<Key>, measure: Key -> Measure, k: Key)
    ensures k in Eligible(groups, measure) <==> k in groups && Quorate(measure(k))
  {
    if groups != [] {
      EligibleListed(groups[..|groups| - 1], measure, k);
      assert groups == groups[..|groups| - 1] + [groups[|groups| - 1]];
    }
  }

  // ----- the imperative rule

  /** The provenance dictionary: every vote under its tile, and nothing else. */
  ghost predicate Indexed(votes: seq<Vote>, unique: map<(nat, nat), Vote>) {
    && (forall v :: v in votes ==> (v.candidate, v.tile) in unique && unique[(v.candidate, v.tile)] == v)
    && (forall p :: p in unique ==> unique[p] in votes && (unique[p].candidate, unique[p].tile) == p)
  }

  lemma IndexOne(votes: seq<Vote>, vote: Vote, unique: map<(nat, nat), Vote>)
    requires Indexed(votes, unique)
    requires (vote.candidate, vote.tile) in unique ==> unique[(vote.candidate, vote.tile)] == vote
    ensures Indexed(votes + [vote], unique[(vote.candidate, vote.tile) := vote])
    ensures (vote.candidate, vote.tile) in unique <==> vote in Kept(votes)
    ensures Kept(votes + [vote]) == if vote in Kept(votes) then Kept(votes) else Kept(votes) + [vote]
  {
    KeptMembers(votes, vote);
    assert (votes + [vote])[..|votes|] == votes;
  }

  method CollectUnique(votes: seq<Vote>) returns (kept: Option<seq<Vote>>)
    ensures kept.Some? <==> Consistent(votes)
    ensures kept.Some? ==> kept.value == Kept(votes)
  {
    var unique: map<(nat, nat), Vote> := map[];
    var order: seq<Vote> := [];
    for i := 0 to |votes|
      invariant Indexed(votes[..i], unique) && order == Kept(votes[..i])
    {
      var vote := votes[i];
      var provenance := (vote.candidate, vote.tile);
      assert votes[..i + 1] == votes[..i] + [vote];
      if provenance in unique && unique[provenance] != vote {
        assert unique[provenance] in votes && SameTile(unique[provenance], vote);
        return None;
      }
      IndexOne(votes[..i], vote, unique);
      if provenance !in unique { order := order + [vote]; }
      unique := unique[provenance := vote];
    }
    assert votes[..|votes|] == votes;
    return Some(order);
  }

  /** The nested dictionary: candidates in order, each with its issuances in
      order, each with its votes. */
  ghost predicate Nested(kept: seq<Vote>, candidates: seq<nat>, issuances: map<nat, seq<nat>>,
                         supporting: map<Key, seq<Vote>>) {
    && candidates == Candidates(kept)
    && (forall c :: IssuancesOf(kept, c) == Found(issuances, c))
    && (forall k :: Members(kept, k) == Found(supporting, k))
  }

  lemma NestOne(kept: seq<Vote>, vote: Vote, candidates: seq<nat>, issuances: map<nat, seq<nat>>,
                supporting: map<Key, seq<Vote>>, named: seq<nat>, group: seq<Vote>)
    requires Nested(kept, candidates, issuances, supporting)
    requires named == Found(issuances, vote.candidate)
    requires group == Found(supporting, KeyOf(vote))
    ensures Nested(kept + [vote],
                   if vote.candidate in candidates then candidates else candidates + [vote.candidate],
                   issuances[vote.candidate := if vote.issuance in named then named else named + [vote.issuance]],
                   supporting[KeyOf(vote) := group + [vote]])
  {
    assert (kept + [vote])[..|kept|] == kept;
    var issuances' := issuances[vote.candidate := if vote.issuance in named then named else named + [vote.issuance]];
    var supporting' := supporting[KeyOf(vote) := group + [vote]];
    forall c ensures IssuancesOf(kept + [vote], c) == Found(issuances', c) {
      assert IssuancesOf(kept, c) == Found(issuances, c);
    }
    forall k ensures Members(kept + [vote], k) == Found(supporting', k) {
      assert Members(kept, k) == Found(supporting, k);
    }
  }

  method GroupByCandidate(kept: seq<Vote>)
    returns (candidates: seq<nat>, issuances: map<nat, seq<nat>>, supporting: map<Key, seq<Vote>>)
    ensures Nested(kept, candidates, issuances, supporting)
  {
    candidates, issuances, supporting := [], map[], map[];
    for i := 0 to |kept|
      invariant Nested(kept[..i], candidates, issuances, supporting)
    {
      var vote := kept[i];
      var c, k := vote.candidate, KeyOf(vote);
      assert kept[..i + 1] == kept[..i] + [vote];
      var named := Found(issuances, c);
      var group := Found(supporting, k);
      NestOne(kept[..i], vote, candidates, issuances, supporting, named, group);
      candidates := if c in candidates then candidates else candidates + [c];
      issuances := issuances[c := if vote.issuance in named then named else named + [vote.issuance]];
      supporting := supporting[k := group + [vote]];
    }
    assert kept[..|kept|] == kept;
  }

  lemma EligibleOne(groups: seq<Key>, k: Key, measure: Key -> Measure)
    ensures Eligible(groups + [k], measure) ==
            if Quorate(measure(k)) then Eligible(groups, measure) + [k] else Eligible(groups, measure)
  {
    assert (groups + [k])[..|groups|] == groups;
  }

  lemma KeysOfOne(c: nat, issuances: seq<nat>, u: nat)
    ensures KeysOf(c, issuances + [u]) == KeysOf(c, issuances) + [Key(c, u)]
  {
    assert (issuances + [u])[..|issuances|] == issuances;
  }

  lemma GroupKeysOne(kept: seq<Vote>, candidates: seq<nat>, c: nat)
    ensures GroupKeys(kept, candidates + [c]) == GroupKeys(kept, candidates) + KeysOf(c, IssuancesOf(kept, c))
  {
    assert (candidates + [c])[..|candidates|] == candidates;
  }

  lemma ListOne(groups: seq<Key>, c: nat, named: seq<nat>, j: nat)
    requires j < |named|
    ensures groups + KeysOf(c, named[..j]) + [Key(c, named[j])] == groups + KeysOf(c, named[..j + 1])
  {
    KeysOfOne(c, named[..j], named[j]);
    assert named[..j + 1] == named[..j] + [named[j]];
  }

  /** The inner loop: one candidate's groups. */
  method ListCandidate(c: nat, named: seq<nat>, supporting: map<Key, seq<Vote>>, repetitions: Repetitions,
                       groups: seq<Key>, eligible: seq<Key>, ghost measure: Key -> Measure)
    returns (groups': seq<Key>, eligible': seq<Key>)
    requires eligible == Eligible(groups, measure)
    requires forall k :: measure(k) == MeasureOf(|Found(supporting, k)|, k.candidate, repetitions)
    ensures groups' == groups + KeysOf(c, named) && eligible' == Eligible(groups', measure)
  {
    groups', eligible' := groups, eligible;
    for j := 0 to |named|
      invariant groups' == groups + KeysOf(c, named[..j]) && eligible' == Eligible(groups', measure)
    {
      var k := Key(c, named[j]);
      EligibleOne(groups', k, measure);
      ListOne(groups, c, named, j);
      if Quorate(MeasureOf(|Found(supporting, k)|, c, repetitions)) { eligible' := eligible' + [k]; }
      groups' := groups' + [k];
    }
    assert named[..|named|] == named;
  }

  method ListGroups(ghost kept: seq<Vote>, candidates: seq<nat>, issuances: map<nat, seq<nat>>,
                    supporting: map<Key, seq<Vote>>, repetitions: Repetitions, ghost measure: Key -> Measure)
    returns (groups: seq<Key>, eligible: seq<Key>)
    requires forall c :: IssuancesOf(kept, c) == Found(issuances, c)
    requires forall k :: measure(k) == MeasureOf(|Found(supporting, k)|, k.candidate, repetitions)
    ensures groups == GroupKeys(kept, candidates) && eligible == Eligible(groups, measure)
  {
    groups, eligible := [], [];
    for i := 0 to |candidates|
      invariant groups == GroupKeys(kept, candidates[..i]) && eligible == Eligible(groups, measure)
    {
      var c := candidates[i];
      GroupKeysOne(kept, candidates[..i], c);
      assert candidates[..i + 1] == candidates[..i] + [c];
      groups, eligible := ListCandidate(c, Found(issuances, c), supporting, repetitions, groups, eligible, measure);
    }
    assert candidates[..|candidates|] == candidates;
  }

  method DecidePayloadVotesV2(votes: seq<TileVote>, repetitions: Repetitions, geometryConfidence: real)
    returns (outcome: Outcome)
    requires Known(Lifted(votes), repetitions)
    ensures outcome == DecideV2(Lifted(votes), repetitions, geometryConfidence)
  {
    var unique := CollectUnique(Lifted(votes));
    if unique.None? { return ConflictingProvenance; }
    var kept := unique.value;
    var candidates, issuances, supporting := GroupByCandidate(kept);
    var groups, eligible := ListGroups(kept, candidates, issuances, supporting, repetitions, Sizes(kept, repetitions));
    if groups == [] { return Settled(Decision(None, geometryConfidence, 0, None, NotDetected)); }
    ghost var measure := Sizes(kept, repetitions);
    var observed := set v | v in kept :: v.issuance;
    if |observed| != 1 || eligible == [] {
      var k := FirstStrongest(groups, supporting, repetitions, measure);
      var group := Found(supporting, k);
      var support := MeasureOf(|group|, k.candidate, repetitions).support;
      return Settled(Decision(None, support, |group|, MeanError(group), Partial));
    }
    var k := FirstStrongest(eligible, supporting, repetitions, measure);
    var group := Found(supporting, k);
    var support := MeasureOf(|group|, k.candidate, repetitions).support;
    outcome := Settled(Decision(Some(k.issuance), support, |group|, MeanError(group), Decoded));
  }

  // ----- agreement with the V3 rule

  /** V2 reports a conflict as partial evidence. */
  function Renamed(status: Status): Status { if status == Conflicting then Partial else status }

  lemma SizesAreBacking(votes: seq<Vote>, repetitions: Repetitions, k: Key)
    requires Consistent(votes)
    ensures Members(Kept(votes), k) == Supporting(Kept(votes), k)
    ensures Sizes(Kept(votes), repetitions)(k) == Backing(Kept(votes), repetitions)(k)
  {
    KeptOnePerTile(votes);
    MembersAreSupporting(Kept(votes), k);
  }

  /** Two maximal measures, each over a list containing the other, agree. */
  lemma MutualMaxima(m: Measure, n: Measure)
    requires !Better(m, n) && !Better(n, m)
    ensures m == n
  {
  }

  /** A V2 selection over groups containing the V3 winner has its measure. */
  lemma SameStrongest(votes: seq<Vote>, groups: seq<Key>, repetitions: Repetitions)
    requires Consistent(votes) && Known(Kept(votes), repetitions)
    requires Keys(Kept(votes)) != [] && Winner(Kept(votes), repetitions) in groups
    requires forall k :: k in groups ==> k in Keys(Kept(votes))
    ensures var kept := Kept(votes);
            var k, w := Strongest(groups, Sizes(kept, repetitions)), Winner(kept, repetitions);
            && k in Keys(kept) && Sizes(kept, repetitions)(k) == Backing(kept, repetitions)(w)
            && |Members(kept, k)| == |Supporting(kept, w)|
  {
    var kept := Kept(votes);
    var k, w := Strongest(groups, Sizes(kept, repetitions)), Winner(kept, repetitions);
    StrongestIsMax(groups, Sizes(kept, repetitions));
    SizesAreBacking(votes, repetitions, k);
    SizesAreBacking(votes, repetitions, w);
    WinnerBeats(kept, repetitions, k);
    MutualMaxima(Backing(kept, repetitions)(k), Backing(kept, repetitions)(w));
    var v := KeyVoted(kept, k);
  }

  lemma KeptRepeated(votes: seq<Vote>, repetitions: Repetitions)
    requires Repeated(votes, repetitions)
    ensures Repeated(Kept(votes), repetitions) && Known(Kept(votes), repetitions)
  {
    forall v | v in Kept(votes) ensures v in votes { KeptMembers(votes, v); }
  }

  lemma EligibleGroups(votes: seq<Vote>, repetitions: Repetitions)
    requires Consistent(votes) && Repeated(votes, repetitions) && Keys(Kept(votes)) != []
    ensures var kept := Kept(votes);
            var w, eligible := Winner(kept, repetitions), Eligible(Groups(kept), Sizes(kept, repetitions));
            && w in Groups(kept)
            && (eligible != [] <==> Quorate(Backing(kept, repetitions)(w)))
            && (eligible != [] ==> w in eligible)
            && (forall k :: k in eligible ==> k in Keys(kept))
  {
    var kept := Kept(votes);
    var w, eligible := Winner(kept, repetitions), Eligible(Groups(kept), Sizes(kept, repetitions));
    KeptRepeated(votes, repetitions);
    StrongestIsMax(Keys(kept), Backing(kept, repetitions));
    SameGroups(kept, w);
    SizesAreBacking(votes, repetitions, w);
    EligibleListed(Groups(kept), Sizes(kept, repetitions), w);
    forall k | k in eligible ensures k in Keys(kept) && Quorate(Backing(kept, repetitions)(w)) {
      EligibleListed(Groups(kept), Sizes(kept, repetitions), k);
      SameGroups(kept, k);
      SizesAreBacking(votes, repetitions, k);
      QuorumWins(kept, repetitions, k.candidate, k.issuance);
    }
    if eligible != [] { assert eligible[0] in eligible; }
  }

  lemma AgreesOnKept(votes: seq<Vote>, repetitions: Repetitions, geometryConfidence: real)
    requires Consistent(votes) && Repeated(votes, repetitions)
    ensures var d := Decide(Kept(votes), repetitions, geometryConfidence);
            var e := DecideV2(votes, repetitions, geometryConfidence);
            && e.Settled? && e.decision.identity == d.identity && e.decision.confidence == d.confidence
            && e.decision.validVotes == d.validVotes && e.decision.status == Renamed(d.status)
  {
    var kept := Kept(votes);
    KeptRepeated(votes, repetitions);
    if Keys(kept) == [] {
      if Groups(kept) != [] { SameGroups(kept, Groups(kept)[0]); }
    } else {
      EligibleGroups(votes, repetitions);
      WinnerVoted(kept, repetitions);
      forall k | k in Groups(kept) ensures k in Keys(kept) { SameGroups(kept, k); }
      SameStrongest(votes, Groups(kept), repetitions);
      var eligible := Eligible(Groups(kept), Sizes(kept, repetitions));
      if |Issuances(kept)| == 1 && eligible != [] {
        SameStrongest(votes, eligible, repetitions);
        var v := KeyVoted(kept, Strongest(eligible, Sizes(kept, repetitions)));
        OneIssuance(kept, Winner(kept, repetitions).issuance);
      }
    }
  }

  /** One vote per tile of a candidate, repeated or not. */
  ghost predicate OneWay(votes: seq<TileVote>) {
    forall v, w :: v in votes && w in votes && v.candidate == w.candidate && v.tile == w.tile ==> v == w
  }

  /** The earlier rule refuses exactly the lists in which a tile of a candidate
      voted in two ways. */
  lemma RefusedExactly(votes: seq<TileVote>, repetitions: Repetitions, geometryConfidence: real)
    ensures DecideV2(Lifted(votes), repetitions, geometryConfidence) == ConflictingProvenance <==> !OneWay(votes)
  {
    var lifted := Lifted(votes);
    forall i | 0 <= i < |votes| ensures lifted[i] == Lift(votes[i]) && lifted[i] in lifted && votes[i] in votes {}
    if !OneWay(votes) {
      var v, w :| v in votes && w in votes && v.candidate == w.candidate && v.tile == w.tile && v != w;
      var i :| 0 <= i < |votes| && votes[i] == v;
      var j :| 0 <= j < |votes| && votes[j] == w;
      assert SameTile(lifted[i], lifted[j]) && lifted[i] != lifted[j];
    } else {
      forall v, w | v in lifted && w in lifted && SameTile(v, w) ensures v == w {
        var i :| 0 <= i < |votes| && lifted[i] == v;
        var j :| 0 <= j < |votes| && lifted[j] == w;
      }
    }
  }

  /** Refinement: on the same evidence the two rules attribute alike, with the
      same confidence and vote count, and V3's conflict is V2's partial. */
  lemma RulesAgree(cast: seq<TileVote>, votes: seq<Vote>, repetitions: Repetitions, geometryConfidence: real)
    requires OneWay(cast) && Established(Lifted(cast)) == Established(votes)
    requires Repeated(Lifted(cast), repetitions) && Repeated(votes, repetitions)
    ensures var d := Decide(votes, repetitions, geometryConfidence);
            var e := DecideV2(Lifted(cast), repetitions, geometryConfidence);
            && e.Settled? && e.decision.identity == d.identity && e.decision.confidence == d.confidence
            && e.decision.validVotes == d.validVotes && e.decision.status == Renamed(d.status)
  {
    var earlier := Lifted(cast);
    RefusedExactly(cast, repetitions, geometryConfidence);
    AgreesOnKept(earlier, repetitions, geometryConfidence);
    KeptEvidence(earlier);
    KeptRepeated(earlier, repetitions);
    OnlyEvidenceMatters(Kept(earlier), votes, repetitions, geometryConfidence);
  }
}
