/** The release gate: per-candidate scores recomputed from row evidence, and
    the loader that returns candidates only for a flawless population. */
module Gate {
  import opened Collections
  import opened Options
  import opened GateRows

  const REQUIRED_POSITIVE_PAGES := 12
  const REQUIRED_NEGATIVE_PAGES := 10
  const REQUIRED_CANDIDATES := 4
  const REQUIRED_ROWS := 352

  // ----- selecting rows

  function OfProfile(profile: string): Row -> bool { (r: Row) => r.key.profile == profile }

  function Positive(attack: Attack): Row -> bool { (r: Row) => r.expected.Some? && r.key.attack == attack }

  predicate IsEligible(r: Row) { r.eligible }

  predicate IsError(r: Row) { r.reason == ExecutionError }

  /** A false attribution told by comparing identities. */
  predicate WrongId(r: Row) { r.decoded.Some? && r.decoded != r.expected }

  /** A false attribution told by the recorded outcome. */
  predicate FalseOutcome(r: Row) { r.outcome == FalseAttribution }

  predicate RightId(r: Row) { r.reason != ExecutionError && r.decoded == r.expected }

  /** Rows whose embedding quality is measured. */
  predicate Measured(r: Row) { r.expected.Some? && r.reason != ExecutionError }

  // ----- scores

  datatype Reading = Reading(psnr: Psnr, ssim: real)

  /** The quality dictionary, with its values in order of insertion. */
  datatype Quality = Disagree | Observed(readings: map<Page, Reading>, values: seq<Reading>)

  function ReadingOf(r: Row): Reading { Reading(r.psnr, r.ssim) }

  /** One reading per page, which every other row of the page must repeat. */
  function QualityOf(rows: seq<Row>): Quality {
    if rows == [] then Observed(map[], [])
    else Noted(QualityOf(rows[..|rows| - 1]), rows[|rows| - 1])
  }

  function Noted(quality: Quality, r: Row): Quality {
    if quality.Disagree? || !Measured(r) then quality
    else if r.key.page !in quality.readings
    then Observed(quality.readings[r.key.page := ReadingOf(r)], quality.values + [ReadingOf(r)])
    else if quality.readings[r.key.page] == ReadingOf(r) then quality
    else Disagree
  }

  predicate Below(a: Psnr, b: Psnr) { a.Db? && (b.Infinite? || a.value < b.value) }

  function LowestPsnr(values: seq<Reading>): Option<Psnr> {
    if values == [] then None
    else
      var front, last := LowestPsnr(values[..|values| - 1]), values[|values| - 1].psnr;
      if front.Some? && !Below(last, front.value) then front else Some(last)
  }

  function LowestSsim(values: seq<Reading>): Option<real> {
    if values == [] then None
    else
      var front, last := LowestSsim(values[..|values| - 1]), values[|values| - 1].ssim;
      if front.Some? && last >= front.value then front else Some(last)
  }

  datatype Score = Score(profile: string, id: string, scheduled: nat, errors: nat, wrong: nat,
                         jpegTrue: nat, jpegTotal: nat, resizeTrue: nat, resizeTotal: nat,
                         cropTrue: nat, cropTotal: nat, observations: nat,
                         lowestPsnr: Option<Psnr>, lowestSsim: Option<real>)

  function ScoreOf(candidate: Candidate, rows: seq<Row>): Option<Score> {
    if (exists r :: r in rows && r.candidateId != candidate.id) || QualityOf(rows).Disagree? then None
    else
      var jpeg, resize := Keep(rows, Positive(Jpeg70)), Keep(rows, Positive(Resize75));
      var crop := Keep(Keep(rows, Positive(Crop25)), IsEligible);
      Some(Score(candidate.profile, candidate.id, |rows|, |Keep(rows, IsError)|, |Keep(rows, WrongId)|,
                 |Keep(jpeg, RightId)|, |jpeg|, |Keep(resize, RightId)|, |resize|, |Keep(crop, RightId)|, |crop|,
                 |QualityOf(rows).readings|, LowestPsnr(QualityOf(rows).values), LowestSsim(QualityOf(rows).values)))
  }

  function RateAtLeast(count: nat, total: nat, rate: real): bool {
    total > 0 && count as real / total as real >= rate
  }

  predicate Passes(s: Score) {
    && RateAtLeast(s.jpegTrue, s.jpegTotal, 0.95)
    && RateAtLeast(s.resizeTrue, s.resizeTotal, 0.95)
    && RateAtLeast(s.cropTrue, s.cropTotal, 0.90)
    && s.wrong == 0 && s.errors == 0
    && s.lowestPsnr.Some? && !Below(s.lowestPsnr.value, Db(38.0))
    && s.lowestSsim.Some? && s.lowestSsim.value >= 0.95
  }

  function GroupRows(rows: seq<Row>, candidate: Candidate): seq<Row> { Keep(rows, OfProfile(candidate.profile)) }

  function ScoreIn(rows: seq<Row>, candidate: Candidate): Option<Score> {
    ScoreOf(candidate, GroupRows(rows, candidate))
  }

  function Scores(rows: seq<Row>, candidates: seq<Candidate>): Option<seq<Score>> {
    if candidates == [] then Some([])
    else
      var front := Scores(rows, candidates[..|candidates| - 1]);
      var score := ScoreIn(rows, candidates[|candidates| - 1]);
      if front.None? || score.None? then None else Some(front.value + [score.value])
  }

  // ----- the decision

  datatype RunStatus = Complete | CompleteWithErrors | Incomplete

  datatype Summary = Summary(status: RunStatus, planned: nat, completed: nat, errors: nat, falseAttributions: nat,
                             qualified: set<string>, scores: seq<Score>)

  function SummaryOf(rows: seq<Row>, planned: nat, qualified: set<string>, scores: seq<Score>): Summary {
    var errors := |Keep(rows, IsError)|;
    Summary(if |rows| != planned then Incomplete else if errors > 0 then CompleteWithErrors else RunStatus.Complete,
            planned, |rows|, errors, |Keep(rows, FalseOutcome)|, qualified, scores)
  }

  predicate Clean(s: Summary) {
    && s.status == RunStatus.Complete && s.planned == REQUIRED_ROWS && s.completed == REQUIRED_ROWS
    && s.errors == 0 && s.falseAttributions == 0
  }

  function Ids(scores: seq<Score>): set<string> { set s | s in scores :: s.id }

  predicate AllPass(scores: seq<Score>) { forall s :: s in scores ==> Passes(s) }

  /** All candidates or none. */
  function QualifiedIds(s: Summary): set<string> {
    if Clean(s) && AllPass(s.scores) then Ids(s.scores) else {}
  }

  predicate InPopulation(candidate: Candidate, score: Score) {
    && score.profile == candidate.profile && score.id == candidate.id
    && score.scheduled == REQUIRED_ROWS / REQUIRED_CANDIDATES
    && score.jpegTotal == score.resizeTotal == REQUIRED_POSITIVE_PAGES
    && score.cropTotal > 0 && score.observations == REQUIRED_POSITIVE_PAGES
  }

  /** The score population the frozen contract demands. */
  predicate Population(plan: Plan, scores: seq<Score>) {
    && |scores| == REQUIRED_CANDIDATES == |plan.candidates|
    && forall i :: 0 <= i < |scores| ==> InPopulation(plan.candidates[i], scores[i])
  }

  datatype Selection = Refused | Selected(ids: set<string>)

  function Select(plan: Plan, s: Summary): Selection {
    if s.planned != REQUIRED_ROWS || !Population(plan, s.scores) then Refused
    else if !Clean(s) || (exists score :: score in s.scores && (score.errors > 0 || score.wrong > 0)) then Selected({})
    else if !AllPass(s.scores) then Selected({})
    else if s.qualified != QualifiedIds(s) then Refused
    else Selected(QualifiedIds(s))
  }

  /** Loading recomputes everything from the rows and compares it with the
      published summary. */
  ghost function Load(plan: Plan, rows: seq<Row>, document: Summary): Selection {
    if !Valid(rows, plan) || !GateRows.Complete(rows, plan) then Refused
    else
      match Scores(rows, plan.candidates)
      case None => Refused
      case Some(scores) =>
        var evidence := SummaryOf(rows, REQUIRED_ROWS, document.qualified, scores);
        if document != evidence then Refused else Select(plan, evidence)
  }

  /** The full pre-gate population. */
  predicate FullPopulation(plan: Plan) {
    && plan.WellFormed() && |plan.positives| == REQUIRED_POSITIVE_PAGES && |plan.negatives| == REQUIRED_NEGATIVE_PAGES
    && |plan.candidates| == REQUIRED_CANDIDATES
  }

  // ----- the aggregation loops

  method CountRows(rows: seq<Row>, p: Row -> bool) returns (n: nat)
    ensures n == |Keep(rows, p)|
  {
    n := 0;
    for i := 0 to |rows|
      invariant n == |Keep(rows[..i], p)|
    {
      KeepMore(rows[..i], rows[i], p);
      assert rows[..i + 1] == rows[..i] + [rows[i]];
      if p(rows[i]) { n := n + 1; }
    }
    assert rows[..|rows|] == rows;
  }

  /** The required lists and the quality dictionary after some rows. */
  ghost predicate Collected(rows: seq<Row>, jpeg: seq<Row>, resize: seq<Row>, crop: seq<Row>,
                            quality: map<Page, Reading>, values: seq<Reading>) {
    && jpeg == Keep(rows, Positive(Jpeg70)) && resize == Keep(rows, Positive(Resize75))
    && crop == Keep(rows, Positive(Crop25)) && QualityOf(rows) == Observed(quality, values)
  }

  function Required(r: Row, attack: Attack): seq<Row> { if r.expected.Some? && r.key.attack == attack then [r] else [] }

  lemma CollectOne(rows: seq<Row>, r: Row, jpeg: seq<Row>, resize: seq<Row>, crop: seq<Row>,
                   quality: map<Page, Reading>, values: seq<Reading>)
    requires Collected(rows, jpeg, resize, crop, quality, values)
    ensures var noted := Noted(Observed(quality, values), r);
            && QualityOf(rows + [r]) == noted
            && (noted.Observed? ==>
                Collected(rows + [r], jpeg + Required(r, Jpeg70), resize + Required(r, Resize75),
                          crop + Required(r, Crop25), noted.readings, noted.values))
  {
    assert (rows + [r])[..|rows|] == rows;
    KeepMore(rows, r, Positive(Jpeg70));
    KeepMore(rows, r, Positive(Resize75));
    KeepMore(rows, r, Positive(Crop25));
  }

  /** Disagreeing readings stay disagreeing. */
  lemma {:induction false} StaysDisagree(rows: seq<Row>, n: nat)
    requires n <= |rows| && QualityOf(rows[..n]).Disagree?
    ensures QualityOf(rows).Disagree?
  {
    if n < |rows| {
      assert rows[..|rows| - 1][..n] == rows[..n];
      StaysDisagree(rows[..|rows| - 1], n);
    } else {
      assert rows[..n] == rows;
    }
  }

  method CollectRows(rows: seq<Row>)
    returns (ok: bool, jpeg: seq<Row>, resize: seq<Row>, crop: seq<Row>, quality: map<Page, Reading>,
             values: seq<Reading>)
    ensures ok <==> QualityOf(rows).Observed?
    ensures ok ==> jpeg == Keep(rows, Positive(Jpeg70)) && resize == Keep(rows, Positive(Resize75))
                   && crop == Keep(rows, Positive(Crop25)) && QualityOf(rows) == Observed(quality, values)
  {
    ok, jpeg, resize, crop, quality, values := true, [], [], [], map[], [];
    for i := 0 to |rows|
      invariant Collected(rows[..i], jpeg, resize, crop, quality, values)
    {
      var r := rows[i];
      CollectOne(rows[..i], r, jpeg, resize, crop, quality, values);
      assert rows[..i + 1] == rows[..i] + [r];
      jpeg, resize, crop := jpeg + Required(r, Jpeg70), resize + Required(r, Resize75), crop + Required(r, Crop25);
      if Measured(r) {
        if r.key.page !in quality {
          quality, values := quality[r.key.page := ReadingOf(r)], values + [ReadingOf(r)];
        } else if quality[r.key.page] != ReadingOf(r) {
          StaysDisagree(rows, i + 1);
          ok := false;
          return;
        }
      }
    }
    assert rows[..|rows|] == rows;
  }

  method LowestReadings(values: seq<Reading>) returns (psnr: Option<Psnr>, ssim: Option<real>)
    ensures psnr == LowestPsnr(values) && ssim == LowestSsim(values)
  {
    psnr, ssim := None, None;
    for i := 0 to |values|
      invariant psnr == LowestPsnr(values[..i]) && ssim == LowestSsim(values[..i])
    {
      assert values[..i + 1][..i] == values[..i];
      if psnr.None? || Below(values[i].psnr, psnr.value) { psnr := Some(values[i].psnr); }
      if ssim.None? || values[i].ssim < ssim.value { ssim := Some(values[i].ssim); }
    }
    assert values[..|values|] == values;
  }

  method AggregateOne(candidate: Candidate, rows: seq<Row>) returns (score: Option<Score>)
    ensures score == ScoreOf(candidate, rows)
  {
    if exists r :: r in rows && r.candidateId != candidate.id { return None; }
    var errors := CountRows(rows, IsError);
    var wrong := CountRows(rows, WrongId);
    var ok, jpeg, resize, crops, quality, values := CollectRows(rows);
    if !ok { return None; }
    var jpegTrue := CountRows(jpeg, RightId);
    var resizeTrue := CountRows(resize, RightId);
    var crop := Keep(crops, IsEligible);
    var cropTrue := CountRows(crop, RightId);
    var psnr, ssim := LowestReadings(values);
    return Some(Score(candidate.profile, candidate.id, |rows|, errors, wrong, jpegTrue, |jpeg|, resizeTrue, |resize|,
                      cropTrue, |crop|, |quality|, psnr, ssim));
  }

  /** Rows grouped under the profiles of the given candidates. */
  ghost predicate GroupedRows(rows: seq<Row>, candidates: seq<Candidate>, grouped: map<string, seq<Row>>) {
    forall c :: c in candidates ==> c.profile in grouped && grouped[c.profile] == GroupRows(rows, c)
  }

  method AggregateScores(rows: seq<Row>, candidates: seq<Candidate>) returns (scores: Option<seq<Score>>)
    requires forall r :: r in rows ==> exists c :: c in candidates && c.profile == r.key.profile
    ensures scores == Scores(rows, candidates)
  {
    var grouped := map c | c in candidates :: c.profile := [];
    for i := 0 to |rows|
      invariant GroupedRows(rows[..i], candidates, grouped)
    {
      var r := rows[i];
      assert r in rows;
      assert rows[..i + 1] == rows[..i] + [r];
      forall c | c in candidates
        ensures GroupRows(rows[..i + 1], c) == GroupRows(rows[..i], c) + if r.key.profile == c.profile then [r] else []
      {
        KeepMore(rows[..i], r, OfProfile(c.profile));
      }
      grouped := grouped[r.key.profile := grouped[r.key.profile] + [r]];
    }
    assert rows[..|rows|] == rows;
    var collected: seq<Score> := [];
    for i := 0 to |candidates|
      invariant Scores(rows, candidates[..i]) == Some(collected)
    {
      assert candidates[..i + 1][..i] == candidates[..i];
      var score := AggregateOne(candidates[i], grouped[candidates[i].profile]);
      if score.None? {
        NoScores(rows, candidates, i + 1);
        return None;
      }
      collected := collected + [score.value];
    }
    assert candidates[..|candidates|] == candidates;
    return Some(collected);
  }

  lemma {:induction false} NoScores(rows: seq<Row>, candidates: seq<Candidate>, n: nat)
    requires n <= |candidates| && Scores(rows, candidates[..n]).None?
    ensures Scores(rows, candidates).None?
    decreases |candidates|
  {
    if n < |candidates| {
      assert candidates[..|candidates| - 1][..n] == candidates[..n];
      NoScores(rows, candidates[..|candidates| - 1], n);
    } else {
      assert candidates[..n] == candidates;
    }
  }

  method LoadSelection(plan: Plan, rows: seq<Row>, document: Summary) returns (selection: Selection)
    ensures selection == Load(plan, rows, document)
  {
    var ok := ValidateRows(rows, plan, true);
    if !ok { return Refused; }
    var scores := AggregateScores(rows, plan.candidates);
    if scores.None? { return Refused; }
    var errors := CountRows(rows, IsError);
    var falseAttributions := CountRows(rows, FalseOutcome);
    var status := if |rows| == REQUIRED_ROWS && errors > 0 then CompleteWithErrors
                  else if |rows| == REQUIRED_ROWS then RunStatus.Complete
                  else Incomplete;
    var evidence := Summary(status, REQUIRED_ROWS, |rows|, errors, falseAttributions, document.qualified, scores.value);
    if document != evidence { return Refused; }
    return Select(plan, evidence);
  }
}
