/** What a nonempty selection proves about the rows, and what rows make the
    gate open: an exact characterisation of the loader. */
module GateSoundness {
  import opened Collections
  import opened Options
  import opened GateRows
  import opened Gate

  // ----- selecting rows

  ghost predicate KeysDistinct(rows: seq<Row>) { forall i, j :: 0 <= i < j < |rows| ==> rows[i].key != rows[j].key }

  lemma {:induction false} KeptDistinct(rows: seq<Row>, p: Row -> bool)
    requires KeysDistinct(rows)
    ensures KeysDistinct(Keep(rows, p))
  {
    if rows != [] {
      var front, last := rows[..|rows| - 1], rows[|rows| - 1];
      KeptDistinct(front, p);
      forall i | 0 <= i < |Keep(front, p)| ensures Keep(front, p)[i].key != last.key {
        KeepMember(front, p, Keep(front, p)[i]);
        var j :| 0 <= j < |front| && front[j] == Keep(front, p)[i];
        assert rows[j].key != rows[|rows| - 1].key;
      }
    }
  }

  predicate HasKey(rows: seq<Row>, key: Key) { exists r :: r in rows && r.key == key }

  lemma {:induction false} KeysCount(rows: seq<Row>)
    requires KeysDistinct(rows)
    ensures |KeysOf(rows)| == |rows|
  {
    if rows != [] {
      var front, last := rows[..|rows| - 1], rows[|rows| - 1];
      KeysCount(front);
      assert rows == front + [last];
      assert KeysOf(rows) == KeysOf(front) + {last.key};
      AddOne(KeysOf(front), last.key);
    }
  }

  /** Selected rows with known, pairwise different keys are counted by them. */
  lemma KeptSize(rows: seq<Row>, p: Row -> bool, keys: set<Key>)
    requires KeysDistinct(rows)
    requires forall r :: r in rows ==> (p(r) <==> r.key in keys)
    requires forall k :: k in keys ==> HasKey(rows, k)
    ensures |Keep(rows, p)| == |keys|
  {
    KeptDistinct(rows, p);
    KeysCount(Keep(rows, p));
    forall k ensures k in KeysOf(Keep(rows, p)) <==> k in keys {
      KeptKey(rows, p, keys, k);
    }
    assert KeysOf(Keep(rows, p)) == keys;
  }

  lemma KeptKey(rows: seq<Row>, p: Row -> bool, keys: set<Key>, k: Key)
    requires forall r :: r in rows ==> (p(r) <==> r.key in keys)
    requires k in keys ==> HasKey(rows, k)
    ensures k in KeysOf(Keep(rows, p)) <==> k in keys
  {
    if k in keys {
      var r :| r in rows && r.key == k;
      KeepMember(rows, p, r);
    }
    if k in KeysOf(Keep(rows, p)) {
      var r :| r in Keep(rows, p) && r.key == k;
      KeepMember(rows, p, r);
    }
  }

  lemma {:induction false} KeyImage(pages: seq<Page>, profile: string, attack: Attack)
    requires Distinct(pages)
    ensures |set p | p in pages :: Key(p, profile, attack)| == |pages|
  {
    if pages != [] {
      var front, last := pages[..|pages| - 1], pages[|pages| - 1];
      KeyImage(front, profile, attack);
      assert pages == front + [last];
      var image := set p | p in front :: Key(p, profile, attack);
      assert (set p | p in pages :: Key(p, profile, attack)) == image + {Key(last, profile, attack)};
      AddOne(image, Key(last, profile, attack));
    }
  }

  lemma DistinctPart<T>(a: seq<T>, b: seq<T>)
    requires Distinct(a + b)
    ensures Distinct(a) && Distinct(b) && forall x :: x in a ==> x !in b
  {
    forall i, j | 0 <= i < j < |a| ensures a[i] != a[j] { assert (a + b)[i] != (a + b)[j]; }
    forall i, j | 0 <= i < j < |b| ensures b[i] != b[j] { assert (a + b)[|a| + i] != (a + b)[|a| + j]; }
    forall i, j | 0 <= i < |a| && 0 <= j < |b| ensures a[i] != b[j] { assert (a + b)[i] != (a + b)[|a| + j]; }
  }

  // ----- one candidate's rows

  /** The rows of one candidate in an accepted complete list: exactly its
      planned keys, once each. */
  ghost predicate Group(group: seq<Row>, plan: Plan, candidate: Candidate) {
    && plan.WellFormed() && candidate in plan.candidates && KeysDistinct(group)
    && (forall r :: r in group ==> Admissible(r, plan) && r.key.profile == candidate.profile)
    && forall p, a :: p in plan.Pages() ==> HasKey(group, Key(p, candidate.profile, a))
  }

  lemma GroupKey(rows: seq<Row>, plan: Plan, candidate: Candidate, key: Key)
    requires candidate in plan.candidates && GateRows.Complete(rows, plan)
    requires key.page in plan.Pages() && key.profile == candidate.profile
    ensures HasKey(Keep(rows, OfProfile(candidate.profile)), key)
  {
    assert plan.Planned(key);
    var r :| r in rows && r.key == key;
    KeepMember(rows, OfProfile(candidate.profile), r);
  }

  lemma GroupOf(rows: seq<Row>, plan: Plan, candidate: Candidate)
    requires plan.WellFormed() && candidate in plan.candidates && Valid(rows, plan) && GateRows.Complete(rows, plan)
    ensures Group(Keep(rows, OfProfile(candidate.profile)), plan, candidate)
  {
    var group := Keep(rows, OfProfile(candidate.profile));
    KeptDistinct(rows, OfProfile(candidate.profile));
    forall r | r in group ensures Admissible(r, plan) && r.key.profile == candidate.profile {
      KeepMember(rows, OfProfile(candidate.profile), r);
    }
    forall p, a | p in plan.Pages() ensures HasKey(group, Key(p, candidate.profile, a)) {
      GroupKey(rows, plan, candidate, Key(p, candidate.profile, a));
    }
  }

  /** A row expects an identity exactly on the positive pages. */
  lemma PositivePages(r: Row, plan: Plan)
    requires plan.WellFormed() && Admissible(r, plan)
    ensures r.expected.Some? <==> r.key.page in plan.positives
  {
    DistinctPart(plan.positives, plan.negatives);
  }

  lemma PositiveTotal(group: seq<Row>, plan: Plan, candidate: Candidate, attack: Attack)
    requires Group(group, plan, candidate)
    ensures |Keep(group, Positive(attack))| == |plan.positives|
  {
    DistinctPart(plan.positives, plan.negatives);
    var keys := set p | p in plan.positives :: Key(p, candidate.profile, attack);
    forall r | r in group ensures Positive(attack)(r) <==> r.key in keys {
      PositivePages(r, plan);
    }
    KeptSize(group, Positive(attack), keys);
    KeyImage(plan.positives, candidate.profile, attack);
  }

  function ByAttack(attack: Attack): Row -> bool { (r: Row) => r.key.attack == attack }

  lemma {:induction false} FourAttacks(rows: seq<Row>)
    ensures |rows| == |Keep(rows, ByAttack(Identity))| + |Keep(rows, ByAttack(Jpeg70))|
                      + |Keep(rows, ByAttack(Resize75))| + |Keep(rows, ByAttack(Crop25))|
  {
    if rows != [] { FourAttacks(rows[..|rows| - 1]); }
  }

  lemma AttackTotal(group: seq<Row>, plan: Plan, candidate: Candidate, attack: Attack)
    requires Group(group, plan, candidate)
    ensures |Keep(group, ByAttack(attack))| == |plan.Pages()|
  {
    var keys := set p | p in plan.Pages() :: Key(p, candidate.profile, attack);
    forall r | r in group ensures ByAttack(attack)(r) <==> r.key in keys {
      assert r.key.page in plan.Pages();
    }
    KeptSize(group, ByAttack(attack), keys);
    KeyImage(plan.Pages(), candidate.profile, attack);
  }

  lemma GroupSize(group: seq<Row>, plan: Plan, candidate: Candidate)
    requires Group(group, plan, candidate)
    ensures |group| == 4 * |plan.Pages()|
  {
    FourAttacks(group);
    AttackTotal(group, plan, candidate, Identity);
    AttackTotal(group, plan, candidate, Jpeg70);
    AttackTotal(group, plan, candidate, Resize75);
    AttackTotal(group, plan, candidate, Crop25);
  }

  // ----- thresholds

  lemma Ratio(count: nat, total: nat, rate: real)
    requires total > 0
    ensures count as real / total as real >= rate <==> count as real >= rate * total as real
  {
    var q := count as real / total as real;
    assert q * total as real == count as real;
    if q >= rate { assert q * total as real >= rate * total as real; }
    if q < rate { assert q * total as real < rate * total as real; }
  }

  /** 0.95 of twelve pages is all twelve. */
  lemma NearlyAllOfTwelve(count: nat)
    requires count <= 12
    ensures RateAtLeast(count, 12, 0.95) <==> count == 12
  {
    Ratio(count, 12, 0.95);
  }

  lemma NineTenths(count: nat, total: nat)
    ensures RateAtLeast(count, total, 0.90) <==> total > 0 && 10 * count >= 9 * total
  {
    if total > 0 { Ratio(count, total, 0.90); }
  }

  predicate Meets(reading: Reading, psnr: real, ssim: real) { !Below(reading.psnr, Db(psnr)) && reading.ssim >= ssim }

  ghost predicate AllMeet(values: seq<Reading>, psnr: real, ssim: real) {
    forall v :: v in values ==> Meets(v, psnr, ssim)
  }

  /** Every measured row reaches both thresholds. */
  ghost predicate AllAtLeast(rows: seq<Row>, psnr: real, ssim: real) {
    forall r :: r in rows && Measured(r) ==> Meets(ReadingOf(r), psnr, ssim)
  }

  lemma {:induction false} LowestMeaning(values: seq<Reading>, psnr: real, ssim: real)
    ensures values == [] <==> LowestPsnr(values).None?
    ensures values == [] <==> LowestSsim(values).None?
    ensures values != [] ==>
              (AllMeet(values, psnr, ssim) <==>
               !Below(LowestPsnr(values).value, Db(psnr)) && LowestSsim(values).value >= ssim)
  {
    if values != [] {
      var front, last := values[..|values| - 1], values[|values| - 1];
      LowestMeaning(front, psnr, ssim);
      assert values == front + [last];
      assert AllMeet(values, psnr, ssim) <==> AllMeet(front, psnr, ssim) && Meets(last, psnr, ssim);
    }
  }

  ghost predicate Agree(rows: seq<Row>) {
    forall r, s :: r in rows && s in rows && Measured(r) && Measured(s) && r.key.page == s.key.page ==>
      ReadingOf(r) == ReadingOf(s)
  }

  function MeasuredPages(rows: seq<Row>): set<Page> { set r | r in rows && Measured(r) :: r.key.page }

  function MeasuredReadings(rows: seq<Row>): set<Reading> { set r | r in rows && Measured(r) :: ReadingOf(r) }

  /** The dictionary holds one entry per measured page. */
  ghost predicate Holds(rows: seq<Row>, readings: map<Page, Reading>, values: seq<Reading>) {
    && readings.Keys == MeasuredPages(rows) && |values| == |readings|
    && SetOf(values) == MeasuredReadings(rows)
    && forall r :: r in rows && Measured(r) ==> readings[r.key.page] == ReadingOf(r)
  }

  lemma PagesGrow(front: seq<Row>, last: Row)
    ensures MeasuredPages(front + [last]) == MeasuredPages(front) + if Measured(last) then {last.key.page} else {}
    ensures MeasuredReadings(front + [last])
         == MeasuredReadings(front) + if Measured(last) then {ReadingOf(last)} else {}
  {
    assert forall r :: r in front + [last] <==> r in front || r == last;
  }

  lemma SetOfMore<T>(s: seq<T>, x: T)
    ensures SetOf(s + [x]) == SetOf(s) + {x}
  {
  }

  lemma MapMore<K, V>(m: map<K, V>, k: K, v: V)
    requires k !in m
    ensures m[k := v].Keys == m.Keys + {k} && |m[k := v]| == |m| + 1
  {
    assert m[k := v].Keys == m.Keys + {k};
    AddOne(m.Keys, k);
    assert |m| == |m.Keys| && |m[k := v]| == |m[k := v].Keys|;
  }

  lemma HoldsNew(front: seq<Row>, last: Row, readings: map<Page, Reading>, values: seq<Reading>)
    requires Holds(front, readings, values) && Measured(last) && last.key.page !in readings
    ensures Holds(front + [last], readings[last.key.page := ReadingOf(last)], values + [ReadingOf(last)])
  {
    PagesGrow(front, last);
    SetOfMore(values, ReadingOf(last));
    MapMore(readings, last.key.page, ReadingOf(last));
    forall r | r in front + [last] && Measured(r)
      ensures readings[last.key.page := ReadingOf(last)][r.key.page] == ReadingOf(r)
    {
      if r != last { assert r in front && r.key.page in MeasuredPages(front); }
    }
  }

  lemma AlreadyMeasured(front: seq<Row>, last: Row, r: Row)
    requires Measured(last) ==>
               r in front && Measured(r) && r.key.page == last.key.page && ReadingOf(r) == ReadingOf(last)
    ensures MeasuredPages(front + [last]) == MeasuredPages(front)
    ensures MeasuredReadings(front + [last]) == MeasuredReadings(front)
  {
    PagesGrow(front, last);
    if Measured(last) {
      assert r.key.page in MeasuredPages(front) && ReadingOf(r) in MeasuredReadings(front);
    }
  }

  lemma HoldsSame(front: seq<Row>, last: Row, readings: map<Page, Reading>, values: seq<Reading>)
    requires Holds(front, readings, values)
    requires Measured(last) ==> last.key.page in readings && readings[last.key.page] == ReadingOf(last)
    ensures Holds(front + [last], readings, values)
  {
    var r := last;
    if Measured(last) {
      assert last.key.page in MeasuredPages(front);
      r :| r in front && Measured(r) && r.key.page == last.key.page;
    }
    AlreadyMeasured(front, last, r);
    assert forall s :: s in front + [last] <==> s in front || s == last;
  }

  lemma {:induction false} QualityHolds(rows: seq<Row>)
    requires QualityOf(rows).Observed?
    ensures Holds(rows, QualityOf(rows).readings, QualityOf(rows).values)
  {
    if rows != [] {
      var front, last := rows[..|rows| - 1], rows[|rows| - 1];
      QualityHolds(front);
      assert rows == front + [last];
      var q := QualityOf(front);
      if Measured(last) && last.key.page !in q.readings { HoldsNew(front, last, q.readings, q.values); }
      else { HoldsSame(front, last, q.readings, q.values); }
    }
  }

  lemma AgreeMore(front: seq<Row>, last: Row)
    ensures Agree(front + [last]) <==>
            Agree(front) && (Measured(last) ==> forall r :: r in front && Measured(r) && r.key.page == last.key.page ==>
                                                  ReadingOf(r) == ReadingOf(last))
  {
    assert forall r :: r in front + [last] <==> r in front || r == last;
  }

  /** The quality dictionary is accepted exactly when all readings of a page
      agree. */
  lemma {:induction false} QualityMeaning(rows: seq<Row>)
    ensures QualityOf(rows).Observed? <==> Agree(rows)
  {
    if rows != [] {
      var front, last := rows[..|rows| - 1], rows[|rows| - 1];
      QualityMeaning(front);
      AgreeMore(front, last);
      assert rows == front + [last];
      if QualityOf(front).Observed? {
        QualityHolds(front);
        if last.key.page in MeasuredPages(front) {
          var r :| r in front && Measured(r) && r.key.page == last.key.page;
        }
      }
    }
  }

  // ----- one candidate's score

  ghost predicate AllRight(group: seq<Row>, attack: Attack) {
    forall r :: r in group && Positive(attack)(r) ==> r.reason != ExecutionError && r.decoded == r.expected
  }

  function EligibleCrops(group: seq<Row>): seq<Row> { Keep(Keep(group, Positive(Crop25)), IsEligible) }

  ghost predicate CropShare(group: seq<Row>) {
    |EligibleCrops(group)| > 0 && 10 * |Keep(EligibleCrops(group), RightId)| >= 9 * |EligibleCrops(group)|
  }

  ghost predicate NoFault(group: seq<Row>) { forall r :: r in group ==> !IsError(r) && !WrongId(r) }

  /** What a passing candidate shows, told without rates or minima. */
  ghost predicate Flawless(group: seq<Row>) {
    && NoFault(group) && AllRight(group, Jpeg70) && AllRight(group, Resize75) && CropShare(group)
    && AllAtLeast(group, 38.0, 0.95)
  }

  ghost predicate TwelveDecided(group: seq<Row>, attack: Attack) {
    && |Keep(group, Positive(attack))| == 12
    && (RateAtLeast(|Keep(Keep(group, Positive(attack)), RightId)|, 12, 0.95) <==> AllRight(group, attack))
  }

  lemma AllRightByCount(group: seq<Row>, plan: Plan, candidate: Candidate, attack: Attack)
    requires Group(group, plan, candidate) && |plan.positives| == REQUIRED_POSITIVE_PAGES
    ensures TwelveDecided(group, attack)
  {
    var rows := Keep(group, Positive(attack));
    PositiveTotal(group, plan, candidate, attack);
    KeepCount(rows, RightId);
    NearlyAllOfTwelve(|Keep(rows, RightId)|);
    forall r ensures r in rows <==> r in group && Positive(attack)(r) { KeepMember(group, Positive(attack), r); }
  }

  lemma SomePositive(group: seq<Row>, plan: Plan, candidate: Candidate)
    requires Group(group, plan, candidate) && |plan.positives| > 0
    ensures exists r :: r in group && r.expected.Some?
  {
    var p := plan.positives[0];
    assert p in plan.Pages();
    assert HasKey(group, Key(p, candidate.profile, Identity));
    var r :| r in group && r.key == Key(p, candidate.profile, Identity);
    PositivePages(r, plan);
  }

  lemma MeasuredTotal(group: seq<Row>, plan: Plan, candidate: Candidate)
    requires Group(group, plan, candidate) && forall r :: r in group ==> !IsError(r)
    ensures |MeasuredPages(group)| == |plan.positives|
  {
    forall p ensures p in MeasuredPages(group) <==> p in plan.positives {
      if p in plan.positives {
        assert p in plan.Pages() && HasKey(group, Key(p, candidate.profile, Identity));
        var r :| r in group && r.key == Key(p, candidate.profile, Identity);
        PositivePages(r, plan);
      }
      if p in MeasuredPages(group) {
        var r :| r in group && Measured(r) && r.key.page == p;
        PositivePages(r, plan);
      }
    }
    assert MeasuredPages(group) == SetOf(plan.positives);
    DistinctPart(plan.positives, plan.negatives);
    DistinctSize(plan.positives);
  }

  lemma FaultFree(group: seq<Row>)
    ensures NoFault(group) <==> |Keep(group, IsError)| == 0 && |Keep(group, WrongId)| == 0
  {
    KeepCount(group, IsError);
    KeepCount(group, WrongId);
  }

  lemma PassMeaning(group: seq<Row>, candidate: Candidate)
    requires forall r :: r in group ==> r.candidateId == candidate.id
    requires QualityOf(group).Observed? && TwelveDecided(group, Jpeg70) && TwelveDecided(group, Resize75)
    requires NoFault(group) ==> exists r :: r in group && Measured(r)
    ensures ScoreOf(candidate, group).Some?
    ensures Passes(ScoreOf(candidate, group).value) <==> Flawless(group)
  {
    FaultFree(group);
    NineTenths(|Keep(EligibleCrops(group), RightId)|, |EligibleCrops(group)|);
    LowestOfGroup(group);
  }

  /** A candidate's score exists exactly when its readings agree, and passes
      exactly when its rows are flawless. */
  lemma ScoreMeaning(group: seq<Row>, plan: Plan, candidate: Candidate)
    requires Group(group, plan, candidate) && |plan.positives| == REQUIRED_POSITIVE_PAGES
    requires forall r :: r in group ==> r.candidateId == candidate.id
    ensures ScoreOf(candidate, group).Some? <==> Agree(group)
    ensures Agree(group) ==> (Passes(ScoreOf(candidate, group).value) <==> Flawless(group))
  {
    QualityMeaning(group);
    AllRightByCount(group, plan, candidate, Jpeg70);
    AllRightByCount(group, plan, candidate, Resize75);
    SomePositive(group, plan, candidate);
    if NoFault(group) {
      var r :| r in group && r.expected.Some?;
      assert Measured(r);
    }
    if Agree(group) { PassMeaning(group, candidate); }
  }

  lemma LowestOfGroup(group: seq<Row>)
    requires QualityOf(group).Observed?
    ensures var values := QualityOf(group).values;
            && (LowestPsnr(values).Some? <==> exists r :: r in group && Measured(r))
            && (LowestSsim(values).Some? <==> exists r :: r in group && Measured(r))
            && (LowestPsnr(values).Some? ==>
                (AllAtLeast(group, 38.0, 0.95) <==>
                 !Below(LowestPsnr(values).value, Db(38.0)) && LowestSsim(values).value >= 0.95))
  {
    var values := QualityOf(group).values;
    QualityHolds(group);
    LowestMeaning(values, 38.0, 0.95);
    forall v ensures v in values <==> v in MeasuredReadings(group) { assert v in SetOf(values) <==> v in values; }
    if values != [] {
      assert values[0] in MeasuredReadings(group);
    }
    if exists r :: r in group && Measured(r) {
      var r :| r in group && Measured(r);
      assert ReadingOf(r) in MeasuredReadings(group);
    }
    ReadingsMeet(group, values);
  }

  lemma ReadingsMeet(group: seq<Row>, values: seq<Reading>)
    requires forall v :: v in values <==> v in MeasuredReadings(group)
    ensures AllAtLeast(group, 38.0, 0.95) <==> AllMeet(values, 38.0, 0.95)
  {
    if AllMeet(values, 38.0, 0.95) {
      forall r | r in group && Measured(r) ensures Meets(ReadingOf(r), 38.0, 0.95) {
        assert ReadingOf(r) in MeasuredReadings(group);
      }
    }
  }

  /** The redundant population checks never refuse a flawless candidate. */
  lemma ScorePopulation(group: seq<Row>, plan: Plan, candidate: Candidate)
    requires Group(group, plan, candidate) && FullPopulation(plan) && Agree(group) && Flawless(group)
    requires forall r :: r in group ==> r.candidateId == candidate.id
    ensures var s := ScoreOf(candidate, group);
            && s.Some? && s.value.scheduled == 88 && s.value.jpegTotal == s.value.resizeTotal == 12
            && s.value.cropTotal > 0 && s.value.observations == 12 && s.value.errors == 0 && s.value.wrong == 0
  {
    QualityMeaning(group);
    QualityHolds(group);
    FaultFree(group);
    GroupSize(group, plan, candidate);
    PositiveTotal(group, plan, candidate, Jpeg70);
    PositiveTotal(group, plan, candidate, Resize75);
    MeasuredTotal(group, plan, candidate);
  }

  // ----- false attributions, counted twice

  lemma WrongIdIsFalseOutcome(r: Row, plan: Plan)
    requires Admissible(r, plan)
    ensures WrongId(r) <==> FalseOutcome(r)
  {
  }

  function WrongIn(rows: seq<Row>, candidates: seq<Candidate>): nat -> nat {
    (i: nat) => if i < |candidates| then |Keep(GroupRows(rows, candidates[i]), WrongId)| else 0
  }

  lemma {:induction false} IndexOfProfile(plan: Plan, profile: string) returns (k: nat)
    requires plan.WellFormed() && exists c :: c in plan.candidates && c.profile == profile
    ensures k < |plan.candidates| && forall i :: 0 <= i < |plan.candidates| ==>
              (plan.candidates[i].profile == profile <==> i == k)
  {
    k :| 0 <= k < |plan.candidates| && plan.candidates[k].profile == profile;
  }

  lemma GroupGrows(front: seq<Row>, last: Row, candidate: Candidate)
    ensures |Keep(GroupRows(front + [last], candidate), WrongId)| ==
            |Keep(GroupRows(front, candidate), WrongId)|
            + if last.key.profile == candidate.profile && WrongId(last) then 1 else 0
  {
    var group := GroupRows(front, candidate);
    assert (front + [last])[..|front|] == front;
    if last.key.profile == candidate.profile {
      assert GroupRows(front + [last], candidate) == group + [last];
      assert (group + [last])[..|group|] == group;
    } else {
      assert GroupRows(front + [last], candidate) == group;
    }
  }

  lemma FalseCountsGrow(front: seq<Row>, last: Row, plan: Plan)
    requires plan.WellFormed() && Admissible(last, plan)
    ensures Total(|plan.candidates|, WrongIn(front + [last], plan.candidates)) ==
            Total(|plan.candidates|, WrongIn(front, plan.candidates)) + if FalseOutcome(last) then 1 else 0
    ensures |Keep(front + [last], FalseOutcome)| == |Keep(front, FalseOutcome)| + if FalseOutcome(last) then 1 else 0
  {
    var k := IndexOfProfile(plan, last.key.profile);
    WrongIdIsFalseOutcome(last, plan);
    var extra := if WrongId(last) then 1 else 0;
    forall i: nat | i < |plan.candidates|
      ensures WrongIn(front + [last], plan.candidates)(i) ==
              WrongIn(front, plan.candidates)(i) + if i == k then extra else 0
    {
      GroupGrows(front, last, plan.candidates[i]);
    }
    TotalBump(|plan.candidates|, WrongIn(front, plan.candidates), WrongIn(front + [last], plan.candidates), k, extra);
    assert (front + [last])[..|front|] == front;
  }

  /** The global count, by recorded outcome, is the sum of the candidates'
      counts, by comparing identities. */
  lemma {:induction false} FalseCountsAgree(rows: seq<Row>, plan: Plan)
    requires plan.WellFormed() && forall i :: 0 <= i < |rows| ==> Admissible(rows[i], plan)
    ensures |Keep(rows, FalseOutcome)| == Total(|plan.candidates|, WrongIn(rows, plan.candidates))
  {
    if rows == [] {
      TotalZero(|plan.candidates|, WrongIn(rows, plan.candidates));
    } else {
      var front, last := rows[..|rows| - 1], rows[|rows| - 1];
      assert rows == front + [last];
      FalseCountsAgree(front, plan);
      FalseCountsGrow(front, last, plan);
    }
  }

  // ----- the gate

  lemma {:induction false} ScoreListed(rows: seq<Row>, candidates: seq<Candidate>, i: nat)
    requires Scores(rows, candidates).Some? && i < |candidates|
    ensures |Scores(rows, candidates).value| == |candidates|
    ensures ScoreIn(rows, candidates[i]) == Some(Scores(rows, candidates).value[i])
    decreases |candidates|
  {
    var front := candidates[..|candidates| - 1];
    if i < |front| { ScoreListed(rows, front, i); }
    else if front != [] { ScoreListed(rows, front, 0); }
  }

  lemma {:induction false} ScoresExist(rows: seq<Row>, candidates: seq<Candidate>)
    requires forall c :: c in candidates ==> ScoreIn(rows, c).Some?
    ensures Scores(rows, candidates).Some?
  {
    if candidates != [] { ScoresExist(rows, candidates[..|candidates| - 1]); }
  }

  /** Every candidate's rows are consistent and flawless. */
  ghost predicate AllFlawless(rows: seq<Row>, plan: Plan) {
    forall i :: 0 <= i < |plan.candidates| ==>
      Agree(GroupRows(rows, plan.candidates[i])) && Flawless(GroupRows(rows, plan.candidates[i]))
  }

  function AllIds(plan: Plan): set<string> { set c | c in plan.candidates :: c.id }

  lemma CandidateIds(rows: seq<Row>, plan: Plan, candidate: Candidate)
    requires plan.WellFormed() && candidate in plan.candidates && Valid(rows, plan)
    ensures forall r :: r in GroupRows(rows, candidate) ==> r.candidateId == candidate.id
  {
    forall r | r in GroupRows(rows, candidate) ensures r.candidateId == candidate.id {
      KeepMember(rows, OfProfile(candidate.profile), r);
      var k := IndexOfProfile(plan, candidate.profile);
      var i :| 0 <= i < |plan.candidates| && plan.candidates[i] == plan.CandidateOf(candidate.profile);
      var j :| 0 <= j < |plan.candidates| && plan.candidates[j] == candidate;
      assert i == k && j == k;
    }
  }

  lemma CandidateScore(rows: seq<Row>, plan: Plan, candidate: Candidate)
    requires FullPopulation(plan) && Valid(rows, plan) && GateRows.Complete(rows, plan)
    requires candidate in plan.candidates
    ensures var group := GroupRows(rows, candidate);
            && (ScoreIn(rows, candidate).Some? <==> Agree(group))
            && (Agree(group) ==> (Passes(ScoreIn(rows, candidate).value) <==> Flawless(group)))
            && (Agree(group) && Flawless(group) ==> InPopulation(candidate, ScoreIn(rows, candidate).value))
  {
    var group := GroupRows(rows, candidate);
    GroupOf(rows, plan, candidate);
    CandidateIds(rows, plan, candidate);
    ScoreMeaning(group, plan, candidate);
    if Agree(group) && Flawless(group) { ScorePopulation(group, plan, candidate); }
  }

  lemma RowInGroup(rows: seq<Row>, plan: Plan, r: Row) returns (k: nat)
    requires plan.WellFormed() && Valid(rows, plan) && r in rows
    ensures k < |plan.candidates| && r in GroupRows(rows, plan.candidates[k])
  {
    k := IndexOfProfile(plan, r.key.profile);
    KeepMember(rows, OfProfile(plan.candidates[k].profile), r);
  }

  /** Flawless groups leave no error and no false attribution anywhere. */
  lemma NoFaultAnywhere(rows: seq<Row>, plan: Plan)
    requires plan.WellFormed() && Valid(rows, plan) && AllFlawless(rows, plan)
    ensures |Keep(rows, IsError)| == 0 && |Keep(rows, FalseOutcome)| == 0
  {
    forall r | r in rows ensures !IsError(r) && !FalseOutcome(r) {
      var k := RowInGroup(rows, plan, r);
      assert Flawless(GroupRows(rows, plan.candidates[k]));
      WrongIdIsFalseOutcome(r, plan);
    }
    KeepCount(rows, IsError);
    KeepCount(rows, FalseOutcome);
  }

  lemma ScoresPass(rows: seq<Row>, plan: Plan)
    requires FullPopulation(plan) && Valid(rows, plan) && GateRows.Complete(rows, plan) && AllFlawless(rows, plan)
    ensures Scores(rows, plan.candidates).Some?
    ensures var scores := Scores(rows, plan.candidates).value;
            Population(plan, scores) && AllPass(scores) && Ids(scores) == AllIds(plan)
  {
    forall c | c in plan.candidates ensures ScoreIn(rows, c).Some? {
      CandidateScore(rows, plan, c);
      var i :| 0 <= i < |plan.candidates| && plan.candidates[i] == c;
    }
    ScoresExist(rows, plan.candidates);
    var scores := Scores(rows, plan.candidates).value;
    ScoreListed(rows, plan.candidates, 0);
    forall i | 0 <= i < |scores| ensures InPopulation(plan.candidates[i], scores[i]) && Passes(scores[i]) {
      ScoreListed(rows, plan.candidates, i);
      CandidateScore(rows, plan, plan.candidates[i]);
    }
    SameIds(plan, scores);
  }

  lemma SameIds(plan: Plan, scores: seq<Score>)
    requires |scores| == |plan.candidates|
    requires forall i :: 0 <= i < |scores| ==> scores[i].id == plan.candidates[i].id
    ensures Ids(scores) == AllIds(plan)
  {
    forall id ensures id in Ids(scores) <==> id in AllIds(plan) {
      if id in Ids(scores) {
        var i :| 0 <= i < |scores| && scores[i].id == id;
        assert plan.candidates[i] in plan.candidates;
      }
      if id in AllIds(plan) {
        var i :| 0 <= i < |plan.candidates| && plan.candidates[i].id == id;
        assert scores[i] in scores;
      }
    }
  }

  lemma PassingRows(rows: seq<Row>, plan: Plan)
    requires FullPopulation(plan) && Valid(rows, plan) && GateRows.Complete(rows, plan)
    requires Scores(rows, plan.candidates).Some? && AllPass(Scores(rows, plan.candidates).value)
    ensures AllFlawless(rows, plan)
  {
    var scores := Scores(rows, plan.candidates).value;
    forall i | 0 <= i < |plan.candidates|
      ensures Agree(GroupRows(rows, plan.candidates[i])) && Flawless(GroupRows(rows, plan.candidates[i]))
    {
      ScoreListed(rows, plan.candidates, i);
      assert scores[i] in scores;
      CandidateScore(rows, plan, plan.candidates[i]);
    }
  }

  /** The summary a flawless complete run publishes. */
  ghost predicate Honest(rows: seq<Row>, plan: Plan, document: Summary) {
    && Scores(rows, plan.candidates).Some?
    && document == SummaryOf(rows, REQUIRED_ROWS, AllIds(plan), Scores(rows, plan.candidates).value)
  }

  /** The gate decides: loading returns candidates exactly when the rows are the
      whole planned population, all of it flawless, and the published summary
      is the recomputed one; then it returns every candidate. */
  lemma GateDecides(rows: seq<Row>, plan: Plan, document: Summary)
    requires FullPopulation(plan)
    ensures var loaded := Load(plan, rows, document);
            && (loaded.Selected? && loaded.ids != {} <==>
                && Valid(rows, plan) && GateRows.Complete(rows, plan) && AllFlawless(rows, plan)
                && Honest(rows, plan, document))
            && (loaded.Selected? ==> loaded.ids == {} || loaded.ids == AllIds(plan))
  {
    if Valid(rows, plan) && GateRows.Complete(rows, plan) {
      if AllFlawless(rows, plan) { FlawlessLoads(rows, plan, document); }
      if Load(plan, rows, document).Selected? && Load(plan, rows, document).ids != {} {
        LoadedFlawless(rows, plan, document);
      }
    }
  }

  lemma PopulationSize(plan: Plan)
    requires FullPopulation(plan)
    ensures plan.PlannedRows() == REQUIRED_ROWS
  {
    assert |plan.Pages()| == 22;
    assert 22 * |plan.candidates| == 88;
  }

  lemma CleanEvidence(rows: seq<Row>, qualified: set<string>, scores: seq<Score>)
    requires |rows| == REQUIRED_ROWS && |Keep(rows, IsError)| == 0 && |Keep(rows, FalseOutcome)| == 0
    ensures Clean(SummaryOf(rows, REQUIRED_ROWS, qualified, scores))
  {
  }

  lemma CleanSelect(plan: Plan, s: Summary)
    requires Clean(s) && Population(plan, s.scores) && AllPass(s.scores)
    ensures Select(plan, s) == if s.qualified == Ids(s.scores) then Selected(Ids(s.scores)) else Refused
  {
  }

  lemma FlawlessLoads(rows: seq<Row>, plan: Plan, document: Summary)
    requires FullPopulation(plan) && Valid(rows, plan) && GateRows.Complete(rows, plan) && AllFlawless(rows, plan)
    ensures AllIds(plan) != {}
    ensures Honest(rows, plan, document) ==> Load(plan, rows, document) == Selected(AllIds(plan))
    ensures !Honest(rows, plan, document) ==> Load(plan, rows, document) == Refused
  {
    ScoresPass(rows, plan);
    NoFaultAnywhere(rows, plan);
    PopulationSize(plan);
    var scores := Scores(rows, plan.candidates).value;
    CleanEvidence(rows, document.qualified, scores);
    CleanSelect(plan, SummaryOf(rows, REQUIRED_ROWS, document.qualified, scores));
    assert plan.candidates[0].id in AllIds(plan);
  }

  lemma NamedMeansPassing(plan: Plan, s: Summary)
    requires Select(plan, s).Selected? && Select(plan, s).ids != {}
    ensures AllPass(s.scores) && Select(plan, s).ids == Ids(s.scores)
  {
  }

  lemma LoadedFlawless(rows: seq<Row>, plan: Plan, document: Summary)
    requires FullPopulation(plan) && Valid(rows, plan) && GateRows.Complete(rows, plan)
    requires Load(plan, rows, document).Selected? && Load(plan, rows, document).ids != {}
    ensures AllFlawless(rows, plan) && Load(plan, rows, document).ids == AllIds(plan)
  {
    var scores := Scores(rows, plan.candidates).value;
    NamedMeansPassing(plan, SummaryOf(rows, REQUIRED_ROWS, document.qualified, scores));
    PassingRows(rows, plan);
    ScoresPass(rows, plan);
  }

  /** The planned case decoded to the identity issued for its page. */
  ghost predicate Attributed(rows: seq<Row>, plan: Plan, key: Key) {
    exists r :: r in rows && r.key == key && r.decoded == Some(plan.issued(key.page, key.profile))
  }

  lemma RowConclusion(rows: seq<Row>, plan: Plan, r: Row)
    requires plan.WellFormed() && Valid(rows, plan) && AllFlawless(rows, plan) && r in rows
    ensures r.reason != ExecutionError && (r.decoded.Some? ==> r.decoded == r.expected)
    ensures r.key.page in plan.positives ==> Meets(ReadingOf(r), 38.0, 0.95)
  {
    var k := RowInGroup(rows, plan, r);
    assert Flawless(GroupRows(rows, plan.candidates[k]));
    PositivePages(r, plan);
  }

  /** What a reader may conclude from a nonempty selection: no row failed or
      named a wrong identity, and every positive page of every candidate was
      attributed under JPEG 70 and resize 0.75 and kept its quality. */
  lemma GateSound(rows: seq<Row>, plan: Plan, document: Summary)
    requires FullPopulation(plan)
    requires Load(plan, rows, document).Selected? && Load(plan, rows, document).ids != {}
    ensures forall r :: r in rows ==> r.reason != ExecutionError && (r.decoded.Some? ==> r.decoded == r.expected)
    ensures forall r :: r in rows && r.key.page in plan.positives ==> Meets(ReadingOf(r), 38.0, 0.95)
    ensures forall p, c, a :: p in plan.positives && c in plan.candidates && (a == Jpeg70 || a == Resize75) ==>
              Attributed(rows, plan, Key(p, c.profile, a))
  {
    GateDecides(rows, plan, document);
    RowConclusions(rows, plan);
    PositivesDecoded(rows, plan);
  }

  lemma RowConclusions(rows: seq<Row>, plan: Plan)
    requires plan.WellFormed() && Valid(rows, plan) && AllFlawless(rows, plan)
    ensures forall r :: r in rows ==> r.reason != ExecutionError && (r.decoded.Some? ==> r.decoded == r.expected)
    ensures forall r :: r in rows && r.key.page in plan.positives ==> Meets(ReadingOf(r), 38.0, 0.95)
  {
    forall r | r in rows
      ensures r.reason != ExecutionError && (r.decoded.Some? ==> r.decoded == r.expected)
      ensures r.key.page in plan.positives ==> Meets(ReadingOf(r), 38.0, 0.95)
    {
      RowConclusion(rows, plan, r);
    }
  }

  lemma PositivesDecoded(rows: seq<Row>, plan: Plan)
    requires plan.WellFormed() && Valid(rows, plan) && GateRows.Complete(rows, plan) && AllFlawless(rows, plan)
    ensures forall p, c, a :: p in plan.positives && c in plan.candidates && (a == Jpeg70 || a == Resize75) ==>
              Attributed(rows, plan, Key(p, c.profile, a))
  {
    forall p, c, a | p in plan.positives && c in plan.candidates && (a == Jpeg70 || a == Resize75)
      ensures Attributed(rows, plan, Key(p, c.profile, a))
    {
      PositiveDecoded(rows, plan, p, c, a);
    }
  }

  lemma PositiveDecoded(rows: seq<Row>, plan: Plan, p: Page, c: Candidate, a: Attack)
    requires plan.WellFormed() && Valid(rows, plan) && GateRows.Complete(rows, plan) && AllFlawless(rows, plan)
    requires p in plan.positives && c in plan.candidates && (a == Jpeg70 || a == Resize75)
    ensures Attributed(rows, plan, Key(p, c.profile, a))
  {
    assert p in plan.Pages() && plan.Planned(Key(p, c.profile, a));
    var r :| r in rows && r.key == Key(p, c.profile, a);
    PositivePages(r, plan);
    var k := RowInGroup(rows, plan, r);
    assert Flawless(GroupRows(rows, plan.candidates[k]));
    assert Positive(a)(r);
  }
}
