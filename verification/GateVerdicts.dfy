/** What the loader says when it names nobody: the exact line between an honest
    run that did not qualify and evidence it refuses. */
module GateVerdicts {
  import opened Collections
  import opened Options
  import opened GateRows
  import opened Gate
  import opened GateSoundness

  /** The candidate's rows can be graded: some positive crop kept enough tiles to
      count, and every positive page has a row that did not fail. */
  ghost predicate Gradable(group: seq<Row>, plan: Plan) {
    && (exists r :: r in group && Positive(Crop25)(r) && IsEligible(r))
    && forall p :: p in plan.positives ==> p in MeasuredPages(group)
  }

  lemma SomeKept<T>(s: seq<T>, p: T -> bool)
    ensures |Keep(s, p)| > 0 <==> exists x :: x in s && p(x)
  {
    if |Keep(s, p)| > 0 { KeepMember(s, p, Keep(s, p)[0]); }
    if exists x :: x in s && p(x) {
      var x :| x in s && p(x);
      KeepMember(s, p, x);
    }
  }

  lemma SomeEligible(group: seq<Row>)
    ensures |EligibleCrops(group)| > 0 <==> exists r :: r in group && Positive(Crop25)(r) && IsEligible(r)
  {
    var crops := Keep(group, Positive(Crop25));
    SomeKept(crops, IsEligible);
    forall r ensures r in crops <==> r in group && Positive(Crop25)(r) { KeepMember(group, Positive(Crop25), r); }
  }

  lemma AllMeasured(group: seq<Row>, plan: Plan, candidate: Candidate)
    requires Group(group, plan, candidate)
    ensures |MeasuredPages(group)| == |plan.positives| <==>
            forall p :: p in plan.positives ==> p in MeasuredPages(group)
  {
    var pages := SetOf(plan.positives);
    forall p | p in MeasuredPages(group) ensures p in pages {
      var r :| r in group && Measured(r) && r.key.page == p;
      PositivePages(r, plan);
    }
    DistinctPart(plan.positives, plan.negatives);
    DistinctSize(plan.positives);
    EqualSize(MeasuredPages(group), pages);
  }

  lemma ScoreFields(group: seq<Row>, plan: Plan, candidate: Candidate)
    requires Group(group, plan, candidate) && FullPopulation(plan) && Agree(group)
    requires forall r :: r in group ==> r.candidateId == candidate.id
    ensures ScoreOf(candidate, group).Some?
    ensures var s := ScoreOf(candidate, group).value;
            && s.profile == candidate.profile && s.id == candidate.id && s.scheduled == 88
            && s.jpegTotal == s.resizeTotal == 12 && s.cropTotal == |EligibleCrops(group)|
            && s.observations == |MeasuredPages(group)|
  {
    QualityMeaning(group);
    QualityHolds(group);
    GroupSize(group, plan, candidate);
    PositiveTotal(group, plan, candidate, Jpeg70);
    PositiveTotal(group, plan, candidate, Resize75);
  }

  /** The score population is the one the contract demands exactly when the rows
      can be graded. */
  lemma PopulationMeaning(group: seq<Row>, plan: Plan, candidate: Candidate)
    requires Group(group, plan, candidate) && FullPopulation(plan) && Agree(group)
    requires forall r :: r in group ==> r.candidateId == candidate.id
    ensures ScoreOf(candidate, group).Some?
    ensures InPopulation(candidate, ScoreOf(candidate, group).value) <==> Gradable(group, plan)
  {
    ScoreFields(group, plan, candidate);
    SomeEligible(group);
    AllMeasured(group, plan, candidate);
  }

  /** Every candidate's readings agree, and its rows can be graded. */
  ghost predicate AllGradable(rows: seq<Row>, plan: Plan) {
    forall i :: 0 <= i < |plan.candidates| ==> GradableAt(rows, plan, i)
  }

  ghost predicate GradableAt(rows: seq<Row>, plan: Plan, i: int) {
    && 0 <= i < |plan.candidates| && Agree(GroupRows(rows, plan.candidates[i]))
    && Gradable(GroupRows(rows, plan.candidates[i]), plan)
  }

  lemma CandidateGradable(rows: seq<Row>, plan: Plan, i: nat)
    requires FullPopulation(plan) && Valid(rows, plan) && GateRows.Complete(rows, plan) && i < |plan.candidates|
    ensures var c := plan.candidates[i];
            && (ScoreIn(rows, c).Some? <==> Agree(GroupRows(rows, c)))
            && (ScoreIn(rows, c).Some? ==>
                (InPopulation(c, ScoreIn(rows, c).value) <==> Gradable(GroupRows(rows, c), plan)))
  {
    var c := plan.candidates[i];
    var group := GroupRows(rows, c);
    CandidateScore(rows, plan, c);
    GroupOf(rows, plan, c);
    CandidateIds(rows, plan, c);
    if Agree(group) { PopulationMeaning(group, plan, c); }
  }

  lemma GradablePopulation(rows: seq<Row>, plan: Plan)
    requires FullPopulation(plan) && Valid(rows, plan) && GateRows.Complete(rows, plan)
    ensures AllGradable(rows, plan) <==>
            Scores(rows, plan.candidates).Some? && Population(plan, Scores(rows, plan.candidates).value)
  {
    if AllGradable(rows, plan) {
      forall c | c in plan.candidates ensures ScoreIn(rows, c).Some? {
        var i: nat :| i < |plan.candidates| && plan.candidates[i] == c;
        assert GradableAt(rows, plan, i);
        CandidateGradable(rows, plan, i);
      }
      ScoresExist(rows, plan.candidates);
    }
    if Scores(rows, plan.candidates).Some? { ScoresGradable(rows, plan, Scores(rows, plan.candidates).value); }
  }

  lemma ScoresGradable(rows: seq<Row>, plan: Plan, scores: seq<Score>)
    requires FullPopulation(plan) && Valid(rows, plan) && GateRows.Complete(rows, plan)
    requires Scores(rows, plan.candidates) == Some(scores)
    ensures AllGradable(rows, plan) <==> Population(plan, scores)
  {
    ScoreListed(rows, plan.candidates, 0);
    forall i: nat | i < |plan.candidates|
      ensures InPopulation(plan.candidates[i], scores[i]) <==> GradableAt(rows, plan, i)
    {
      ScoreGradable(rows, plan, scores, i);
    }
  }

  lemma ScoreGradable(rows: seq<Row>, plan: Plan, scores: seq<Score>, i: nat)
    requires FullPopulation(plan) && Valid(rows, plan) && GateRows.Complete(rows, plan)
    requires Scores(rows, plan.candidates) == Some(scores) && i < |plan.candidates| == |scores|
    ensures InPopulation(plan.candidates[i], scores[i]) <==> GradableAt(rows, plan, i)
  {
    ScoreListed(rows, plan.candidates, i);
    CandidateGradable(rows, plan, i);
  }

  /** The published summary is the recomputed one, whomever it names. */
  ghost predicate Truthful(rows: seq<Row>, plan: Plan, document: Summary) {
    && Scores(rows, plan.candidates).Some?
    && document == SummaryOf(rows, REQUIRED_ROWS, document.qualified, Scores(rows, plan.candidates).value)
  }

  lemma UnqualifiedSelect(plan: Plan, s: Summary)
    requires s.planned == REQUIRED_ROWS && !AllPass(s.scores)
    ensures Select(plan, s) == if Population(plan, s.scores) then Selected({}) else Refused
  {
  }

  /** An honest run that does not qualify selects nobody; everything else that
      names nobody is refused: incomplete or invalid rows, readings that
      contradict each other, rows that cannot be graded, a summary that differs
      from the rows, and a flawless run whose summary withholds a candidate. */
  lemma NobodyExactly(rows: seq<Row>, plan: Plan, document: Summary)
    requires FullPopulation(plan)
    ensures Load(plan, rows, document) == Selected({}) <==>
              && Valid(rows, plan) && GateRows.Complete(rows, plan) && AllGradable(rows, plan)
              && Truthful(rows, plan, document) && !AllFlawless(rows, plan)
  {
    if Valid(rows, plan) && GateRows.Complete(rows, plan) {
      GradablePopulation(rows, plan);
      if AllFlawless(rows, plan) {
        FlawlessLoads(rows, plan, document);
      } else if Truthful(rows, plan, document) {
        Unflawless(rows, plan);
        UnqualifiedSelect(plan, document);
      }
    }
  }

  lemma Unflawless(rows: seq<Row>, plan: Plan)
    requires FullPopulation(plan) && Valid(rows, plan) && GateRows.Complete(rows, plan) && !AllFlawless(rows, plan)
    requires Scores(rows, plan.candidates).Some?
    ensures !AllPass(Scores(rows, plan.candidates).value)
  {
    if AllPass(Scores(rows, plan.candidates).value) { PassingRows(rows, plan); }
  }

  /** The recomputed summary of admitted rows says of the run what the rows say:
      whether all are there, whether one failed, and whether one names somebody
      it was not issued to. */
  lemma SummaryMeaning(rows: seq<Row>, plan: Plan, qualified: set<string>, scores: seq<Score>)
    requires Valid(rows, plan)
    ensures var s := SummaryOf(rows, plan.PlannedRows(), qualified, scores);
            var failed := exists r :: r in rows && r.status == ExecutionFailed;
            var all := |rows| == plan.PlannedRows();
            && (s.status == RunStatus.Incomplete <==> !all)
            && (s.status == RunStatus.Complete <==> all && !failed)
            && (s.errors > 0 <==> failed)
            && (s.falseAttributions > 0 <==> exists r :: r in rows && r.decoded.Some? && r.decoded != r.expected)
            && s.planned == plan.PlannedRows() && s.completed == |rows|
  {
    SomeKept(rows, IsError);
    SomeKept(rows, FalseOutcome);
    forall r | r in rows ensures IsError(r) <==> r.status == ExecutionFailed { assert Admissible(r, plan); }
    forall r | r in rows ensures FalseOutcome(r) <==> WrongId(r) { WrongIdIsFalseOutcome(r, plan); }
  }
}
