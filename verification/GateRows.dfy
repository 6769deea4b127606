/** The pre-gate's row evidence: what a planned row is, and the validator that
    admits a row list only as the planned population. */
module GateRows {
  import opened Collections
  import opened Options

  datatype Attack = Identity | Jpeg70 | Resize75 | Crop25

  datatype Page = Page(fixture: string, index: nat)

  datatype Key = Key(page: Page, profile: string, attack: Attack)

  datatype EvidenceStatus = Decoded | PartialPayload | ConflictingPayload | PayloadNotDetected | InsufficientSync
                          | GeometryRejected | ExecutionFailed

  datatype Reason = DecodedReason | PartialReason | NotDetected | ExecutionError

  datatype Outcome = TrueAttribution | FalseAttribution | TrueNegative | Failed | Missed(reason: Reason)

  /** A quality reading; identical images have infinite PSNR. */
  datatype Psnr = Infinite | Db(value: real)

  datatype Row = Row(key: Key, rowId: string, candidateId: string, expected: Option<string>,
                     decoded: Option<string>, reason: Reason, status: EvidenceStatus, outcome: Outcome, votes: nat,
                     bitErrorRate: Option<real>, psnr: Psnr, ssim: real, eligible: bool, remaining: Option<nat>)

  datatype Candidate = Candidate(profile: string, id: string, repetitions: nat)

  /** The planned population and everything the plan determines about a row:
      the issued identity, the row identifier, the embedded tiles left by the
      crop, and the remaining provenance and artifact checks. */
  datatype Plan = Plan(positives: seq<Page>, negatives: seq<Page>, candidates: seq<Candidate>,
                       issued: (Page, string) -> string, rowId: Key -> string, remaining: Key -> nat,
                       evidence: Row -> bool)
  {
    function Pages(): seq<Page> { positives + negatives }

    predicate WellFormed() {
      && Distinct(Pages())
      && forall i, j :: 0 <= i < j < |candidates| ==> candidates[i].profile != candidates[j].profile
    }

    predicate Planned(key: Key) {
      key.page in Pages() && exists c :: c in candidates && c.profile == key.profile
    }

    function PlannedRows(): nat { |Pages()| * |candidates| * 4 }

    function CandidateOf(profile: string): (c: Candidate)
      requires exists c :: c in candidates && c.profile == profile
      ensures c in candidates && c.profile == profile
    {
      Find(candidates, profile)
    }

    function ExpectedId(key: Key): Option<string> {
      if key.page in negatives then None else Some(issued(key.page, key.profile))
    }
  }

  function Find(candidates: seq<Candidate>, profile: string): (c: Candidate)
    requires exists c :: c in candidates && c.profile == profile
    ensures c in candidates && c.profile == profile
  {
    if candidates[0].profile == profile then candidates[0]
    else
      assert candidates == [candidates[0]] + candidates[1..];
      Find(candidates[1..], profile)
  }

  function ReasonOf(status: EvidenceStatus): Reason {
    match status
    case Decoded => DecodedReason
    case PartialPayload => PartialReason
    case ExecutionFailed => ExecutionError
    case _ => NotDetected
  }

  function OutcomeOf(expected: Option<string>, decoded: Option<string>, reason: Reason): Outcome {
    if reason == ExecutionError then Failed
    else if decoded.Some? && decoded == expected then TrueAttribution
    else if decoded.Some? then FalseAttribution
    else if expected.None? then TrueNegative
    else Missed(reason)
  }

  predicate PayloadConsistent(row: Row, repetitions: nat) {
    && row.votes <= repetitions
    && match row.status
       case Decoded => row.votes >= 2 && row.bitErrorRate.Some?
       case PartialPayload => row.votes >= 1 && row.bitErrorRate.Some?
       case ConflictingPayload => row.votes >= 1 && row.bitErrorRate.Some?
       case _ => row.votes == 0 && row.bitErrorRate.None?
  }

  predicate CropConsistent(row: Row, plan: Plan) {
    if row.expected.Some? && row.key.attack == Crop25
    then row.remaining == Some(plan.remaining(row.key)) && row.eligible == (plan.remaining(row.key) >= 2)
    else row.remaining == None && row.eligible
  }

  predicate RowValid(row: Row, plan: Plan)
    requires plan.Planned(row.key)
  {
    var candidate := plan.CandidateOf(row.key.profile);
    && row.candidateId == candidate.id && plan.evidence(row)
    && row.expected == plan.ExpectedId(row.key)
    && row.reason == ReasonOf(row.status)
    && (row.decoded.Some? <==> row.status == Decoded)
    && PayloadConsistent(row, candidate.repetitions)
    && row.outcome == OutcomeOf(row.expected, row.decoded, row.reason)
    && CropConsistent(row, plan)
  }

  predicate Admissible(row: Row, plan: Plan) {
    plan.Planned(row.key) && row.rowId == plan.rowId(row.key) && RowValid(row, plan)
  }

  /** What the validator accepts. */
  ghost predicate Valid(rows: seq<Row>, plan: Plan) {
    && |rows| <= plan.PlannedRows()
    && (forall i :: 0 <= i < |rows| ==> Admissible(rows[i], plan))
    && forall i, j :: 0 <= i < j < |rows| ==> rows[i].key != rows[j].key && rows[i].rowId != rows[j].rowId
  }

  ghost predicate Complete(rows: seq<Row>, plan: Plan) {
    |rows| == plan.PlannedRows() && forall key :: plan.Planned(key) ==> exists r :: r in rows && r.key == key
  }

  function ExpectedKeys(plan: Plan): set<Key> {
    set p, c, a | p in plan.Pages() && c in plan.candidates && a in {Identity, Jpeg70, Resize75, Crop25}
      :: Key(p, c.profile, a)
  }

  lemma ExpectedKey(plan: Plan, key: Key)
    ensures key in ExpectedKeys(plan) <==> plan.Planned(key)
  {
    if plan.Planned(key) {
      var c :| c in plan.candidates && c.profile == key.profile;
      match key.attack { case Identity => case Jpeg70 => case Resize75 => case Crop25 => }
      assert key == Key(key.page, c.profile, key.attack);
    }
  }

  function KeysOf(rows: seq<Row>): set<Key> { set r | r in rows :: r.key }

  /** One more row is accepted when it is admissible and new. */
  lemma ValidMore(rows: seq<Row>, row: Row, plan: Plan)
    requires Valid(rows, plan)
    ensures |rows| < plan.PlannedRows() && Admissible(row, plan) && row.key !in KeysOf(rows)
            && row.rowId !in (set r | r in rows :: r.rowId)
            ==> Valid(rows + [row], plan)
  {
    var more := rows + [row];
    if |rows| < plan.PlannedRows() && Admissible(row, plan) && row.key !in KeysOf(rows)
       && row.rowId !in (set r | r in rows :: r.rowId) {
      forall i, j | 0 <= i < j < |more| ensures more[i].key != more[j].key && more[i].rowId != more[j].rowId {
        assert rows[i] in rows;
      }
    }
  }

  method ValidateRows(rows: seq<Row>, plan: Plan, requireComplete: bool) returns (ok: bool)
    ensures ok <==> Valid(rows, plan) && (requireComplete ==> Complete(rows, plan))
  {
    if |rows| > plan.PlannedRows() || (requireComplete && |rows| != plan.PlannedRows()) { return false; }
    var expected := ExpectedKeys(plan);
    var observed: set<Key>, rowIds: set<string> := {}, {};
    for ordinal := 0 to |rows|
      invariant observed == KeysOf(rows[..ordinal])
      invariant rowIds == set r | r in rows[..ordinal] :: r.rowId
      invariant Valid(rows[..ordinal], plan)
    {
      var row := rows[ordinal];
      assert rows[..ordinal + 1] == rows[..ordinal] + [row];
      ExpectedKey(plan, row.key);
      ValidMore(rows[..ordinal], row, plan);
      if row.key in observed || row.key !in expected || row.rowId in rowIds || row.rowId != plan.rowId(row.key) {
        return false;
      }
      observed, rowIds := observed + {row.key}, rowIds + {row.rowId};
      if !RowValid(row, plan) { return false; }
    }
    assert rows[..|rows|] == rows;
    forall key ensures key in expected <==> plan.Planned(key) { ExpectedKey(plan, key); }
    if requireComplete && observed != expected { return false; }
    return true;
  }

  /** A complete accepted list holds every planned row exactly once. */
  lemma ExactlyOnce(rows: seq<Row>, plan: Plan, key: Key)
    requires Valid(rows, plan) && Complete(rows, plan) && plan.Planned(key)
    ensures exists i :: 0 <= i < |rows| && rows[i].key == key
                        && forall j :: 0 <= j < |rows| && rows[j].key == key ==> j == i
  {
    var r :| r in rows && r.key == key;
    var i :| 0 <= i < |rows| && rows[i] == r;
    assert forall j :: 0 <= j < |rows| && rows[j].key == key ==> j == i;
  }

  // ----- what an admitted row says

  /** The outcome of an admitted row, told by its page, status and identity. */
  lemma OutcomesExactly(r: Row, plan: Plan)
    requires Admissible(r, plan)
    ensures r.outcome == Failed <==> r.status == ExecutionFailed
    ensures r.outcome == TrueAttribution <==>
            r.key.page !in plan.negatives && r.decoded == Some(plan.issued(r.key.page, r.key.profile))
    ensures r.outcome == FalseAttribution <==>
            r.decoded.Some? && (r.key.page in plan.negatives
                                || r.decoded.value != plan.issued(r.key.page, r.key.profile))
    ensures r.outcome == TrueNegative <==>
            r.key.page in plan.negatives && r.decoded.None? && r.status != ExecutionFailed
    ensures r.decoded.Some? ==> 2 <= r.votes <= plan.CandidateOf(r.key.profile).repetitions
    ensures r.votes == 0 <==> r.status !in {Decoded, PartialPayload, ConflictingPayload}
    ensures r.bitErrorRate.Some? <==> r.votes > 0
    ensures r.reason == PartialReason <==> r.status == PartialPayload
    ensures r.eligible <==> r.key.page in plan.negatives || r.key.attack != Crop25 || plan.remaining(r.key) >= 2
  {
  }

  /** Key, status and decoded identity determine every other claim of a row but
      its measurements. */
  lemma RowDetermined(r: Row, s: Row, plan: Plan)
    requires Admissible(r, plan) && Admissible(s, plan)
    requires r.key == s.key && r.status == s.status && r.decoded == s.decoded
    ensures r.rowId == s.rowId && r.candidateId == s.candidateId && r.expected == s.expected && r.reason == s.reason
    ensures r.outcome == s.outcome && r.eligible == s.eligible && r.remaining == s.remaining
  {
  }
}
