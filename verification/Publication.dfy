/** Publication order of the pre-gate: the selection is blanked first and written
    last, every write replaces one file atomically, and the process may die
    between any two of them. */
module Publication {
  import opened Options

  /** The checkpoint's run identity: pre-gate runs and plain matrix runs of any
      plan never share one. */
  datatype Owner = Pregate(plan: string) | Matrix(plan: string)

  datatype Selection = Selection(plan: string, resultsHash: string, csvHash: string, summaryHash: string,
                                 ids: seq<string>)

  datatype Disk = Disk(owner: Option<Owner>, selection: Option<Selection>, results: Option<string>,
                       csv: Option<string>, summary: Option<string>)

  datatype Write =
    | Claim(owner: Owner)
    | PutSelection(selection: Selection)
    | PutResults(text: string)
    | PutCsv(text: string)
    | PutSummary(text: string)

  /** What one process would write if it lived: the texts its rows export to,
      whether they validate, and what the gate qualifies. */
  datatype Attempt = Attempt(owner: Owner, results: string, csv: string, benchmarkSummary: string, valid: bool,
                             gateSummary: string, qualified: seq<string>)

  function Blank(plan: string): Selection {
    var zeros := seq(64, _ => '0');
    Selection(plan, zeros, zeros, zeros, [])
  }

  function Effect(disk: Disk, write: Write): Disk {
    match write
    case Claim(owner) => disk.(owner := Some(owner))
    case PutSelection(selection) => disk.(selection := Some(selection))
    case PutResults(text) => disk.(results := Some(text))
    case PutCsv(text) => disk.(csv := Some(text))
    case PutSummary(text) => disk.(summary := Some(text))
  }

  function Apply(disk: Disk, writes: seq<Write>): Disk {
    if writes == [] then disk else Effect(Apply(disk, writes[..|writes| - 1]), writes[|writes| - 1])
  }

  /** The execution plan's own writes: refused outright when the checkpoint
      belongs to another run. */
  function Execution(disk: Disk, a: Attempt): seq<Write> {
    if disk.owner.Some? && disk.owner.value != a.owner then []
    else (if disk.owner.None? then [Claim(a.owner)] else [])
         + [PutResults(a.results), PutCsv(a.csv), PutSummary(a.benchmarkSummary)]
  }

  function Verdict(hash: string -> string, a: Attempt): seq<Write> {
    if !a.valid then []
    else [PutSummary(a.gateSummary),
          PutSelection(Selection(a.owner.plan, hash(a.results), hash(a.csv), hash(a.gateSummary), a.qualified))]
  }

  function Writes(hash: string -> string, disk: Disk, a: Attempt): seq<Write> {
    match a.owner
    case Matrix(_) => Execution(disk, a)
    case Pregate(plan) =>
      [PutSelection(Blank(plan))] + Execution(disk, a)
      + if Execution(disk, a) == [] then [] else Verdict(hash, a)
  }

  predicate Named(disk: Disk) { disk.selection.Some? && disk.selection.value.ids != [] }

  /** The loader's hash checks. */
  predicate HashesAgree(hash: string -> string, disk: Disk)
    requires disk.selection.Some?
  {
    && disk.results.Some? && disk.selection.value.resultsHash == hash(disk.results.value)
    && disk.csv.Some? && disk.selection.value.csvHash == hash(disk.csv.value)
    && disk.summary.Some? && disk.selection.value.summaryHash == hash(disk.summary.value)
  }

  /** A selection naming a candidate is bound to the files beside it, which a
      pre-gate run owns. */
  predicate Bound(hash: string -> string, disk: Disk) {
    Named(disk) ==> HashesAgree(hash, disk) && disk.owner.Some? && disk.owner.value.Pregate?
  }

  function Survived(writes: seq<Write>, life: Option<nat>): seq<Write> {
    if life.Some? && life.value < |writes| then writes[..life.value] else writes
  }

  function Step(hash: string -> string, disk: Disk, a: Attempt, life: Option<nat>): Disk {
    Apply(disk, Survived(Writes(hash, disk, a), life))
  }

  lemma Then(disk: Disk, writes: seq<Write>, write: Write)
    ensures Apply(disk, writes + [write]) == Effect(Apply(disk, writes), write)
  {
    assert (writes + [write])[..|writes|] == writes;
  }

  predicate Harmless(write: Write) { write.PutSelection? ==> write.selection.ids == [] }

  predicate AllHarmless(writes: seq<Write>) { forall i :: 0 <= i < |writes| ==> Harmless(writes[i]) }

  /** Harmless writes after a blanking never name a candidate. */
  lemma {:induction false} StaysUnnamed(disk: Disk, writes: seq<Write>)
    requires AllHarmless(writes)
    requires !Named(disk) || (writes != [] && writes[0].PutSelection?)
    ensures !Named(Apply(disk, writes))
  {
    if writes != [] {
      var front, last := writes[..|writes| - 1], writes[|writes| - 1];
      assert Harmless(last);
      if front != [] {
        assert forall i :: 0 <= i < |front| ==> front[i] == writes[i];
        StaysUnnamed(disk, front);
      } else if !Named(disk) {
        StaysUnnamed(disk, front);
      }
    }
  }

  /** Everything but a completed verdict is harmless. */
  lemma UnfinishedHarmless(hash: string -> string, disk: Disk, a: Attempt, life: Option<nat>)
    requires Survived(Writes(hash, disk, a), life) != Writes(hash, disk, a) || a.owner.Matrix? || !a.valid
             || Execution(disk, a) == []
    ensures AllHarmless(Survived(Writes(hash, disk, a), life))
  {
  }

  /** A run that lives to its last write leaves exactly its verdict, bound to
      what is on disk. */
  lemma Published(hash: string -> string, disk: Disk, a: Attempt)
    requires a.owner.Pregate? && a.valid && Execution(disk, a) != []
    ensures var after := Apply(disk, Writes(hash, disk, a));
            && after.owner == Some(a.owner) && after.selection.Some? && after.selection.value.ids == a.qualified
            && after.selection.value.plan == a.owner.plan && HashesAgree(hash, after)
            && after.results == Some(a.results) && after.csv == Some(a.csv) && after.summary == Some(a.gateSummary)
  {
    var blank := [PutSelection(Blank(a.owner.plan))];
    var claimed := blank + if disk.owner.None? then [Claim(a.owner)] else [];
    var w1 := claimed + [PutResults(a.results)];
    var w2 := w1 + [PutCsv(a.csv)];
    var w3 := w2 + [PutSummary(a.benchmarkSummary)];
    var w4 := w3 + [PutSummary(a.gateSummary)];
    Then(disk, [], blank[0]);
    Then(disk, blank, Claim(a.owner));
    assert Apply(disk, claimed).owner == Some(a.owner);
    Then(disk, claimed, PutResults(a.results));
    Then(disk, w1, PutCsv(a.csv));
    Then(disk, w2, PutSummary(a.benchmarkSummary));
    Then(disk, w3, PutSummary(a.gateSummary));
    var selection := Verdict(hash, a)[1];
    Then(disk, w4, selection);
    assert Writes(hash, disk, a) == w4 + [selection];
  }

  /** One attempt, killed before any of its writes, keeps the binding. */
  lemma AttemptKeepsBound(hash: string -> string, disk: Disk, a: Attempt, life: Option<nat>)
    requires Bound(hash, disk)
    ensures Bound(hash, Step(hash, disk, a, life))
  {
    var done := Survived(Writes(hash, disk, a), life);
    if a.owner.Pregate? && done == Writes(hash, disk, a) && a.valid && Execution(disk, a) != [] {
      Published(hash, disk, a);
    } else if done != [] {
      UnfinishedHarmless(hash, disk, a, life);
      StaysUnnamed(disk, done);
    }
  }

  /** Once a pre-gate run has started, only its completed verdict can name a
      candidate: dying anywhere in between, failing validation or meeting a
      foreign checkpoint all leave the directory naming nobody. */
  lemma OnlyVerdictsName(hash: string -> string, disk: Disk, a: Attempt, life: Option<nat>)
    requires a.owner.Pregate? && life != Some(0)
    ensures Named(Step(hash, disk, a, life)) <==>
            && a.qualified != [] && a.valid && (disk.owner.None? || disk.owner.value == a.owner)
            && (life.None? || life.value >= |Writes(hash, disk, a)|)
  {
    var done := Survived(Writes(hash, disk, a), life);
    if done == Writes(hash, disk, a) && a.valid && Execution(disk, a) != [] {
      Published(hash, disk, a);
    } else {
      UnfinishedHarmless(hash, disk, a, life);
      StaysUnnamed(disk, done);
    }
  }

  // ----- every reachable directory

  function Empty(): Disk { Disk(None, None, None, None, None) }

  function Reached(hash: string -> string, schedule: seq<(Attempt, Option<nat>)>): Disk {
    if schedule == [] then Empty()
    else
      var (attempt, life) := schedule[|schedule| - 1];
      Step(hash, Reached(hash, schedule[..|schedule| - 1]), attempt, life)
  }

  /** Crash consistency: whatever pre-gate and matrix runs of whatever plans
      shared the directory, and wherever each of them died, a selection that
      names a candidate records the hashes of the files now on disk. */
  lemma {:induction false} CrashConsistent(hash: string -> string, schedule: seq<(Attempt, Option<nat>)>)
    ensures Bound(hash, Reached(hash, schedule))
  {
    if schedule != [] {
      var (attempt, life) := schedule[|schedule| - 1];
      CrashConsistent(hash, schedule[..|schedule| - 1]);
      AttemptKeepsBound(hash, Reached(hash, schedule[..|schedule| - 1]), attempt, life);
    }
  }

  // ----- the publishing process

  datatype Ending = Died | Refused | Invalid | Finished

  /** How a pre-gate run ends. */
  function Ended(hash: string -> string, disk: Disk, a: Attempt, life: Option<nat>): Ending {
    if life.Some? && life.value < |Writes(hash, disk, a)| then Died
    else if disk.owner.Some? && disk.owner.value != a.owner then Refused
    else if !a.valid then Invalid
    else Finished
  }

  /** A finished run is the one whose texts and verdict are on disk. */
  lemma FinishedMeans(hash: string -> string, disk: Disk, a: Attempt, life: Option<nat>)
    requires a.owner.Pregate? && Ended(hash, disk, a, life) == Finished
    ensures var after := Step(hash, disk, a, life);
            && after.owner == Some(a.owner) && after.results == Some(a.results) && after.csv == Some(a.csv)
            && after.summary == Some(a.gateSummary) && after.selection.Some? && HashesAgree(hash, after)
            && after.selection.value.ids == a.qualified
  {
    Published(hash, disk, a);
  }

  class Directory {
    var disk: Disk
    var left: Option<nat>

    constructor (disk: Disk, life: Option<nat>)
      ensures this.disk == disk && left == life
    {
      this.disk, left := disk, life;
    }

    /** One atomic replacement; dead processes write nothing. */
    method Replace(write: Write) returns (alive: bool)
      modifies this
      ensures alive <==> old(left) != Some(0)
      ensures disk == if alive then Effect(old(disk), write) else old(disk)
      ensures left == if alive && old(left).Some? then Some(old(left).value - 1) else old(left)
    {
      if left == Some(0) { return false; }
      disk := Effect(disk, write);
      if left.Some? { left := Some(left.value - 1); }
      return true;
    }

    /** Write number k of a planned list. */
    method Advance(write: Write, ghost start: Disk, ghost life: Option<nat>, ghost writes: seq<Write>, ghost k: nat)
      returns (alive: bool)
      requires k < |writes| && write == writes[k] && At(start, life, writes, k)
      modifies this
      ensures alive ==> At(start, life, writes, k + 1)
      ensures !alive ==> disk == Apply(start, Survived(writes, life)) && life == Some(k)
    {
      alive := Replace(write);
      Then(start, writes[..k], write);
      assert writes[..k + 1] == writes[..k] + [write];
    }

    ghost predicate At(start: Disk, life: Option<nat>, writes: seq<Write>, k: nat)
      reads this
    {
      && k <= |writes| && disk == Apply(start, writes[..k])
      && (left.Some? <==> life.Some?) && (life.Some? ==> k + left.value == life.value)
    }

    /** The process died inside the planned list, which was cut there. */
    ghost predicate CutShort(start: Disk, life: Option<nat>, writes: seq<Write>)
      reads this
    {
      disk == Apply(start, Survived(writes, life)) && life.Some? && life.value < |writes|
    }

    /** The execution's three exports. */
    method ExportRun(a: Attempt, ghost start: Disk, ghost life: Option<nat>, ghost writes: seq<Write>, ghost k: nat)
      returns (alive: bool)
      requires At(start, life, writes, k) && k + 3 <= |writes|
      requires writes[k..k + 3] == [PutResults(a.results), PutCsv(a.csv), PutSummary(a.benchmarkSummary)]
      modifies this
      ensures if alive then At(start, life, writes, k + 3) else CutShort(start, life, writes)
    {
      ghost var exports := writes[k..k + 3];
      assert exports[0] == writes[k] && exports[1] == writes[k + 1] && exports[2] == writes[k + 2];
      alive := Advance(PutResults(a.results), start, life, writes, k);
      if !alive { return; }
      alive := Advance(PutCsv(a.csv), start, life, writes, k + 1);
      if !alive { return; }
      alive := Advance(PutSummary(a.benchmarkSummary), start, life, writes, k + 2);
    }

    /** The gate's summary, then the selection bound to it. */
    method Conclude(summary: string, selection: Selection, ghost start: Disk, ghost life: Option<nat>,
                    ghost writes: seq<Write>, ghost k: nat)
      returns (alive: bool)
      requires At(start, life, writes, k) && k + 2 <= |writes|
      requires writes[k] == PutSummary(summary) && writes[k + 1] == PutSelection(selection)
      modifies this
      ensures if alive then At(start, life, writes, k + 2) else CutShort(start, life, writes)
    {
      alive := Advance(PutSummary(summary), start, life, writes, k);
      if !alive { return; }
      alive := Advance(PutSelection(selection), start, life, writes, k + 1);
    }

    /** Runs or resumes the pre-gate in this directory. */
    method RunPregate(hash: string -> string, a: Attempt) returns (ending: Ending)
      requires a.owner.Pregate?
      modifies this
      ensures disk == Step(hash, old(disk), a, old(left))
      ensures ending == Ended(hash, old(disk), a, old(left))
    {
      ghost var start, life, writes := disk, left, Writes(hash, disk, a);
      ghost var base := if start.owner.None? then 2 else 1;
      assert writes[..0] == [];
      var ok := Advance(PutSelection(Blank(a.owner.plan)), start, life, writes, 0);
      if !ok { return Died; }
      Then(start, [], writes[0]);
      assert writes[..1] == [] + [writes[0]];
      if disk.owner.Some? && disk.owner.value != a.owner {
        assert writes == [writes[0]];
        return Refused;
      }
      if disk.owner.None? {
        ok := Advance(Claim(a.owner), start, life, writes, 1);
        if !ok { return Died; }
      }
      ok := ExportRun(a, start, life, writes, base);
      if !ok { return Died; }
      Exported(hash, start, a);
      var results, csv := disk.results.value, disk.csv.value;
      if !a.valid {
        assert writes[..base + 3] == writes;
        return Invalid;
      }
      var selection := Selection(a.owner.plan, hash(results), hash(csv), hash(a.gateSummary), a.qualified);
      ok := Conclude(a.gateSummary, selection, start, life, writes, base + 3);
      if !ok { return Died; }
      assert writes[..base + 5] == writes;
      return Finished;
    }
  }

  /** After the execution's own writes the evidence on disk is this run's. */
  lemma Exported(hash: string -> string, disk: Disk, a: Attempt)
    requires a.owner.Pregate? && Execution(disk, a) != []
    ensures var base := if disk.owner.None? then 2 else 1;
            var after := Apply(disk, Writes(hash, disk, a)[..base + 3]);
            after.results == Some(a.results) && after.csv == Some(a.csv)
  {
    var base := if disk.owner.None? then 2 else 1;
    var writes := Writes(hash, disk, a);
    assert writes[base] == PutResults(a.results);
    assert writes[base + 1] == PutCsv(a.csv);
    assert writes[base + 2] == PutSummary(a.benchmarkSummary);
    Then(disk, writes[..base], PutResults(a.results));
    assert writes[..base + 1] == writes[..base] + [PutResults(a.results)];
    Then(disk, writes[..base + 1], PutCsv(a.csv));
    assert writes[..base + 2] == writes[..base + 1] + [PutCsv(a.csv)];
    Then(disk, writes[..base + 2], PutSummary(a.benchmarkSummary));
    assert writes[..base + 3] == writes[..base + 2] + [PutSummary(a.benchmarkSummary)];
  }
}
