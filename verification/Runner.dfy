/** The sharded, resumable benchmark runner: a checkpoint of committed rows, sessions
    that stop early or die between commits, and what any schedule of them leaves. */
module Runner {
  import opened Collections
  import opened Numbers
  import opened Options

  datatype Case = Case(page: nat, candidate: nat, attack: nat)

  /** The measured part (timings, memory) is declared nondeterministic. */
  datatype Row<Core> = Row(core: Core, measured: int)

  type Table<Core> = map<string, Row<Core>>

  /** The planned product and what its cases compute. Embedding happens once
      for all attacks on one page and candidate. */
  datatype Plan<!Image, !Core> =
    Plan(pages: nat, candidates: nat, attacks: nat, rowId: Case -> string, embed: (nat, nat) -> Image,
         execute: (Image, nat) -> Core, failed: Core -> bool, identity: string)
  {
    function Block(): nat { candidates * attacks }

    function Planned(): nat { pages * Block() }

    /** The case at an ordinal below Planned(). */
    function CaseAt(ordinal: nat): Case {
      if attacks == 0 || candidates == 0 then Case(0, 0, 0)
      else Case(ordinal / attacks / candidates, ordinal / attacks % candidates, ordinal % attacks)
    }

    function IdAt(ordinal: nat): string { rowId(CaseAt(ordinal)) }

    function CoreAt(ordinal: nat): Core {
      var c := CaseAt(ordinal);
      execute(embed(c.page, c.candidate), c.attack)
    }

    /** Row identifiers are hashes, assumed not to collide on the plan. */
    ghost predicate DistinctIds() {
      forall i, j :: 0 <= i < j < Planned() ==> IdAt(i) != IdAt(j)
    }
  }

  datatype Shard = Shard(index: nat, count: nat) {
    predicate Valid() { index < count }

    predicate Owns(ordinal: nat)
      requires Valid()
    {
      ordinal % count == index
    }
  }

  /** The nested loops reach the cases in ordinal order. */
  lemma OrdinalOfCase<Image, Core>(plan: Plan<Image, Core>, c: Case)
    requires c.page < plan.pages && c.candidate < plan.candidates && c.attack < plan.attacks
    ensures var o := (c.page * plan.candidates + c.candidate) * plan.attacks + c.attack;
            o < plan.Planned() && plan.CaseAt(o) == c
  {
    var block := c.page * plan.candidates + c.candidate;
    var o := block * plan.attacks + c.attack;
    DivModUnique(o, block, plan.attacks);
    DivModUnique(block, c.page, plan.candidates);
    BlockBound(c.page, plan.pages, c.candidate, plan.candidates);
    BlockBound(block, plan.pages * plan.candidates, c.attack, plan.attacks);
    assert plan.pages * plan.candidates * plan.attacks == plan.pages * (plan.candidates * plan.attacks);
  }

  lemma BlockBound(x: nat, bound: nat, y: nat, size: nat)
    requires x < bound && y < size
    ensures x * size + y < bound * size
  {
    assert (x + 1) * size <= bound * size;
  }

  lemma BlockEnd<Image, Core>(plan: Plan<Image, Core>, page: nat, candidate: nat)
    requires page < plan.pages && candidate < plan.candidates
    ensures (page * plan.candidates + candidate) * plan.attacks + plan.attacks <= plan.Planned()
  {
    var block := page * plan.candidates + candidate;
    BlockBound(page, plan.pages, candidate, plan.candidates);
    Multiple(block + 1, plan.pages * plan.candidates, plan.attacks);
    assert block * plan.attacks + plan.attacks == (block + 1) * plan.attacks;
    assert plan.pages * plan.candidates * plan.attacks == plan.pages * (plan.candidates * plan.attacks);
  }

  lemma Multiple(x: nat, y: nat, size: nat)
    requires x <= y
    ensures x * size <= y * size
  {
  }

  // ----- what a session has to do

  /** The shard's unfinished ordinals below n, ascending. */
  function Pending<Image, Core>(plan: Plan<Image, Core>, shard: Shard, rows: Table<Core>, n: nat): seq<nat>
    requires shard.Valid() && n <= plan.Planned()
  {
    if n == 0 then []
    else
      var front := Pending(plan, shard, rows, n - 1);
      if shard.Owns(n - 1) && plan.IdAt(n - 1) !in rows then front + [n - 1] else front
  }

  /** The table after committing the given ordinals in turn. */
  function Committed<Image, Core>(plan: Plan<Image, Core>, rows: Table<Core>, ordinals: seq<nat>, noise: nat -> int)
    : Table<Core>
  {
    if ordinals == [] then rows
    else
      var last := ordinals[|ordinals| - 1];
      Committed(plan, rows, ordinals[..|ordinals| - 1], noise)[plan.IdAt(last) := Row(plan.CoreAt(last), noise(last))]
  }

  function First(s: seq<nat>, k: nat): seq<nat> { if k < |s| then s[..k] else s }

  /** One sitting of the runner: its row limit, the number of commits it lives
      to make (None: it ends by itself) and what it happens to measure. */
  datatype Session = Session(maxRows: Option<nat>, life: Option<nat>, noise: nat -> int)

  /** How many rows the session may add when it already made `spent` commits. */
  function Limit(session: Session, spent: nat, planned: nat): nat {
    var rows := if session.maxRows.Some? then session.maxRows.value else planned;
    var alive := if session.life.None? then planned
                 else if session.life.value < spent then 0
                 else session.life.value - spent;
    if rows < alive then rows else alive
  }

  function Todo<Image, Core>(plan: Plan<Image, Core>, shard: Shard, rows: Table<Core>, session: Session, spent: nat)
    : seq<nat>
    requires shard.Valid()
  {
    First(Pending(plan, shard, rows, plan.Planned()), Limit(session, spent, plan.Planned()))
  }

  function After<Image, Core>(plan: Plan<Image, Core>, shard: Shard, rows: Table<Core>, session: Session, spent: nat)
    : Table<Core>
    requires shard.Valid()
  {
    Committed(plan, rows, Todo(plan, shard, rows, session, spent), session.noise)
  }

  lemma {:induction false} PendingInRange<Image, Core>(plan: Plan<Image, Core>, shard: Shard, rows: Table<Core>, n: nat)
    requires shard.Valid() && n <= plan.Planned()
    ensures |Pending(plan, shard, rows, n)| <= n
  {
    if n > 0 { PendingInRange(plan, shard, rows, n - 1); }
  }

  lemma {:induction false} PendingPrefix<Image, Core>(plan: Plan<Image, Core>, shard: Shard, rows: Table<Core>, m: nat,
                                                      n: nat)
    requires shard.Valid() && m <= n <= plan.Planned()
    ensures Pending(plan, shard, rows, m) <= Pending(plan, shard, rows, n)
    decreases n
  {
    if m < n { PendingPrefix(plan, shard, rows, m, n - 1); }
  }

  lemma {:induction false} PendingMembers<Image, Core>(plan: Plan<Image, Core>, shard: Shard, rows: Table<Core>, n: nat,
                                                       o: nat)
    requires shard.Valid() && n <= plan.Planned()
    ensures o in Pending(plan, shard, rows, n) <==> o < n && shard.Owns(o) && plan.IdAt(o) !in rows
  {
    if n > 0 { PendingMembers(plan, shard, rows, n - 1, o); }
  }

  /** Committing writes exactly the ids of the given ordinals. */
  lemma {:induction false} CommittedIds<Image, Core>(plan: Plan<Image, Core>, rows: Table<Core>, ordinals: seq<nat>,
                                                     noise: nat -> int, id: string)
    ensures id in Committed(plan, rows, ordinals, noise) <==>
            id in rows || exists o :: o in ordinals && plan.IdAt(o) == id
  {
    if ordinals != [] {
      var front, last := ordinals[..|ordinals| - 1], ordinals[|ordinals| - 1];
      CommittedIds(plan, rows, front, noise, id);
      assert ordinals == front + [last];
    }
  }

  lemma CommitOne<Image, Core>(plan: Plan<Image, Core>, rows: Table<Core>, ordinals: seq<nat>, o: nat,
                               noise: nat -> int)
    requires o < plan.Planned()
    ensures Committed(plan, rows, ordinals + [o], noise) ==
            Committed(plan, rows, ordinals, noise)[plan.IdAt(o) := Row(plan.CoreAt(o), noise(o))]
  {
    assert (ordinals + [o])[..|ordinals|] == ordinals;
  }

  // ----- one session

  /** A row stands for one of the shard's cases and holds its result. */
  ghost predicate Justified<Image, Core>(plan: Plan<Image, Core>, shard: Shard, id: string, row: Row<Core>)
    requires shard.Valid()
  {
    exists o :: 0 <= o < plan.Planned() && shard.Owns(o) && plan.IdAt(o) == id && plan.CoreAt(o) == row.core
  }

  ghost predicate Sound<Image, Core>(plan: Plan<Image, Core>, shard: Shard, rows: Table<Core>)
    requires shard.Valid()
  {
    forall id :: id in rows ==> Justified(plan, shard, id, rows[id])
  }

  ghost predicate Covers<Image, Core>(plan: Plan<Image, Core>, shard: Shard, rows: Table<Core>)
    requires shard.Valid()
  {
    forall o :: 0 <= o < plan.Planned() && shard.Owns(o) ==> plan.IdAt(o) in rows
  }

  /** Ascending ordinals of the shard whose rows are missing. */
  ghost predicate Missing<Image, Core>(plan: Plan<Image, Core>, shard: Shard, rows: Table<Core>, ordinals: seq<nat>)
    requires shard.Valid()
  {
    && (forall k :: 0 <= k < |ordinals| ==> ordinals[k] < plan.Planned())
    && (forall i, j :: 0 <= i < j < |ordinals| ==> ordinals[i] < ordinals[j])
    && (forall k :: 0 <= k < |ordinals| ==> shard.Owns(ordinals[k]) && plan.IdAt(ordinals[k]) !in rows)
  }

  lemma {:induction false} PendingMissing<Image, Core>(plan: Plan<Image, Core>, shard: Shard, rows: Table<Core>, n: nat)
    requires shard.Valid() && n <= plan.Planned()
    ensures Missing(plan, shard, rows, Pending(plan, shard, rows, n))
    ensures forall k :: 0 <= k < |Pending(plan, shard, rows, n)| ==> Pending(plan, shard, rows, n)[k] < n
  {
    if n > 0 { PendingMissing(plan, shard, rows, n - 1); }
  }

  lemma {:induction false} CommitMissing<Image, Core>(plan: Plan<Image, Core>, shard: Shard, rows: Table<Core>,
                                                      ordinals: seq<nat>, noise: nat -> int)
    requires shard.Valid() && plan.DistinctIds() && Missing(plan, shard, rows, ordinals)
    ensures var after := Committed(plan, rows, ordinals, noise);
            && (forall id :: id in rows ==> id in after && after[id] == rows[id])
            && (forall id :: id in after && id !in rows ==> Justified(plan, shard, id, after[id]))
            && |after| == |rows| + |ordinals|
  {
    if ordinals != [] {
      var front, last := ordinals[..|ordinals| - 1], ordinals[|ordinals| - 1];
      CommitMissing(plan, shard, rows, front, noise);
      CommittedIds(plan, rows, front, noise, plan.IdAt(last));
      var before := Committed(plan, rows, front, noise);
      assert plan.IdAt(last) !in before;
      assert Justified(plan, shard, plan.IdAt(last), Row(plan.CoreAt(last), noise(last)));
    }
  }

  /** One session, wherever it stops: committed rows stay as they are, new rows
      are right and belong to the shard, and their number is the smaller of
      the session's limit and what was missing. */
  lemma SessionProgress<Image, Core>(plan: Plan<Image, Core>, shard: Shard, rows: Table<Core>, session: Session,
                                     spent: nat)
    requires shard.Valid() && plan.DistinctIds()
    ensures var after := After(plan, shard, rows, session, spent);
            var missing := |Pending(plan, shard, rows, plan.Planned())|;
            var limit := Limit(session, spent, plan.Planned());
            && (forall id :: id in rows ==> id in after && after[id] == rows[id])
            && (Sound(plan, shard, rows) ==> Sound(plan, shard, after))
            && |after| == |rows| + (if limit < missing then limit else missing)
            && (limit >= missing ==> Covers(plan, shard, after))
  {
    var pending := Pending(plan, shard, rows, plan.Planned());
    PendingMissing(plan, shard, rows, plan.Planned());
    CommitMissing(plan, shard, rows, Todo(plan, shard, rows, session, spent), session.noise);
    if Limit(session, spent, plan.Planned()) >= |pending| {
      forall o | 0 <= o < plan.Planned() && shard.Owns(o)
        ensures plan.IdAt(o) in After(plan, shard, rows, session, spent)
      {
        PendingMembers(plan, shard, rows, plan.Planned(), o);
        CommittedIds(plan, rows, pending, session.noise, plan.IdAt(o));
      }
    }
  }

  /** What stops a session: it commits no more rows than it may, none after its
      death, and leaves a row missing only when one of the two is used up. */
  lemma SessionLimits<Image, Core>(plan: Plan<Image, Core>, shard: Shard, rows: Table<Core>, session: Session,
                                   spent: nat)
    requires shard.Valid() && plan.DistinctIds()
    ensures var added := |After(plan, shard, rows, session, spent)| - |rows|;
            && 0 <= added <= |Pending(plan, shard, rows, plan.Planned())|
            && (session.maxRows.Some? ==> added <= session.maxRows.value)
            && (session.life.Some? ==> added == 0 || added + spent <= session.life.value)
            && (!Covers(plan, shard, After(plan, shard, rows, session, spent)) ==>
                  || session.maxRows == Some(added)
                  || (session.life.Some? && added + spent >= session.life.value))
  {
    SessionProgress(plan, shard, rows, session, spent);
    PendingInRange(plan, shard, rows, plan.Planned());
  }

  // ----- any schedule of sessions

  /** What survives between sessions. */
  datatype Disk<Core> = Disk(initialized: bool, rows: Table<Core>)

  function Step<Image, Core>(plan: Plan<Image, Core>, shard: Shard, disk: Disk<Core>, session: Session): Disk<Core>
    requires shard.Valid()
  {
    if !disk.initialized && session.life == Some(0) then disk
    else Disk(true, After(plan, shard, disk.rows, session, if disk.initialized then 0 else 1))
  }

  function Replay<Image, Core>(plan: Plan<Image, Core>, shard: Shard, disk: Disk<Core>, schedule: seq<Session>)
    : Disk<Core>
    requires shard.Valid()
  {
    if schedule == [] then disk
    else Step(plan, shard, Replay(plan, shard, disk, schedule[..|schedule| - 1]), schedule[|schedule| - 1])
  }

  function Fresh<Core>(): Disk<Core> { Disk(false, map[]) }

  predicate Uninterrupted(session: Session) { session.maxRows.None? && session.life.None? }

  /** Over every schedule the table only grows and stays inside the shard. */
  lemma {:induction false} ScheduleInvariant<Image, Core>(plan: Plan<Image, Core>, shard: Shard, disk: Disk<Core>,
                                                          schedule: seq<Session>)
    requires shard.Valid() && plan.DistinctIds() && Sound(plan, shard, disk.rows)
    ensures var rows := Replay(plan, shard, disk, schedule).rows;
            Sound(plan, shard, rows) && forall id :: id in disk.rows ==> id in rows && rows[id] == disk.rows[id]
  {
    if schedule != [] {
      var front := schedule[..|schedule| - 1];
      ScheduleInvariant(plan, shard, disk, front);
      var before := Replay(plan, shard, disk, front);
      SessionProgress(plan, shard, before.rows, schedule[|schedule| - 1], if before.initialized then 0 else 1);
    }
  }

  function Cores<Core>(rows: Table<Core>): map<string, Core> { map id | id in rows :: rows[id].core }

  /** A sound and covering table is determined up to its measurements. */
  lemma SameCores<Image, Core>(plan: Plan<Image, Core>, shard: Shard, a: Table<Core>, b: Table<Core>)
    requires shard.Valid() && plan.DistinctIds()
    requires Sound(plan, shard, a) && Covers(plan, shard, a) && Sound(plan, shard, b) && Covers(plan, shard, b)
    ensures Cores(a) == Cores(b)
  {
    forall id ensures id in a ==> id in b && a[id].core == b[id].core {
      if id in a { SameEntry(plan, shard, a, b, id); }
    }
    forall id ensures id in b ==> id in a {
      if id in b { SameEntry(plan, shard, b, a, id); }
    }
  }

  lemma SameEntry<Image, Core>(plan: Plan<Image, Core>, shard: Shard, a: Table<Core>, b: Table<Core>, id: string)
    requires shard.Valid() && plan.DistinctIds() && id in a
    requires Sound(plan, shard, a) && Sound(plan, shard, b) && Covers(plan, shard, b)
    ensures id in b && a[id].core == b[id].core
  {
    assert Justified(plan, shard, id, a[id]);
    assert id in b;
    assert Justified(plan, shard, id, b[id]);
  }

  /** An uninterrupted session completes the shard from any earlier state. */
  lemma FinalSession<Image, Core>(plan: Plan<Image, Core>, shard: Shard, schedule: seq<Session>, final: Session)
    requires shard.Valid() && plan.DistinctIds() && Uninterrupted(final)
    ensures var rows := Replay(plan, shard, Fresh<Core>(), schedule + [final]).rows;
            Sound(plan, shard, rows) && Covers(plan, shard, rows)
  {
    ScheduleInvariant(plan, shard, Fresh<Core>(), schedule);
    assert (schedule + [final])[..|schedule|] == schedule;
    var disk := Replay(plan, shard, Fresh<Core>(), schedule);
    PendingInRange(plan, shard, disk.rows, plan.Planned());
    SessionProgress(plan, shard, disk.rows, final, if disk.initialized then 0 else 1);
  }

  /** Resuming after any crashes and limits gives the rows of one run. */
  lemma ResumeEqualsOneRun<Image, Core>(plan: Plan<Image, Core>, shard: Shard, schedule: seq<Session>, final: Session,
                                        once: Session)
    requires shard.Valid() && plan.DistinctIds() && Uninterrupted(final) && Uninterrupted(once)
    ensures Cores(Replay(plan, shard, Fresh<Core>(), schedule + [final]).rows) ==
            Cores(Replay(plan, shard, Fresh<Core>(), [once]).rows)
  {
    FinalSession(plan, shard, schedule, final);
    FinalSession(plan, shard, [], once);
    assert [] + [once] == [once];
    SameCores(plan, shard, Replay(plan, shard, Fresh<Core>(), schedule + [final]).rows,
              Replay(plan, shard, Fresh<Core>(), [once]).rows);
  }

  // ----- completion and shards

  function Owned(shard: Shard): nat -> bool
    requires shard.Valid()
  {
    (o: nat) => shard.Owns(o)
  }

  function PlannedRows<Image, Core>(plan: Plan<Image, Core>, shard: Shard): nat
    requires shard.Valid()
  {
    Count(plan.Planned(), Owned(shard))
  }

  ghost function Present<Image, Core>(plan: Plan<Image, Core>, shard: Shard, rows: Table<Core>): nat -> bool
    requires shard.Valid()
  {
    (o: nat) => o < plan.Planned() && shard.Owns(o) && plan.IdAt(o) in rows
  }

  lemma RowsArePresent<Image, Core>(plan: Plan<Image, Core>, shard: Shard, rows: Table<Core>)
    requires shard.Valid() && plan.DistinctIds() && Sound(plan, shard, rows)
    ensures Count(plan.Planned(), Present(plan, shard, rows)) == |rows|
  {
    var id := (o: nat) => if o < plan.Planned() then plan.IdAt(o) else "";
    forall x | x in rows.Keys
      ensures exists o: nat :: o < plan.Planned() && Present(plan, shard, rows)(o) && id(o) == x
    {
      assert Justified(plan, shard, x, rows[x]);
      var o: nat :| o < plan.Planned() && shard.Owns(o) && plan.IdAt(o) == x && plan.CoreAt(o) == rows[x].core;
      assert Present(plan, shard, rows)(o) && id(o) == x;
    }
    CountImage(plan.Planned(), Present(plan, shard, rows), id, rows.Keys);
  }

  /** The row count alone tells whether a shard is complete. */
  lemma CompleteByCount<Image, Core>(plan: Plan<Image, Core>, shard: Shard, rows: Table<Core>)
    requires shard.Valid() && plan.DistinctIds() && Sound(plan, shard, rows)
    ensures |rows| <= PlannedRows(plan, shard)
    ensures |rows| == PlannedRows(plan, shard) <==> Covers(plan, shard, rows)
  {
    RowsArePresent(plan, shard, rows);
    var absent := (o: nat) => o < plan.Planned() && shard.Owns(o) && plan.IdAt(o) !in rows;
    CountSplit(plan.Planned(), Owned(shard), Present(plan, shard, rows), absent);
    CountNone(plan.Planned(), absent);
    if Covers(plan, shard, rows) {
      forall o: nat | o < plan.Planned() ensures !absent(o) {
        if shard.Owns(o) { assert plan.IdAt(o) in rows; }
      }
    } else {
      var o :| 0 <= o < plan.Planned() && shard.Owns(o) && plan.IdAt(o) !in rows;
      assert absent(o);
    }
  }

  /** Sharding is a partition: over completed shards of one plan each planned
      row is in exactly the table of shard `ordinal mod count`, with the result
      the unsharded run has, and no other row exists. */
  lemma ShardsPartition<Image, Core>(plan: Plan<Image, Core>, tables: seq<Table<Core>>, whole: Table<Core>)
    requires plan.DistinctIds() && |tables| > 0
    requires forall i :: 0 <= i < |tables| ==>
               Sound(plan, Shard(i, |tables|), tables[i]) && Covers(plan, Shard(i, |tables|), tables[i])
    requires Sound(plan, Shard(0, 1), whole) && Covers(plan, Shard(0, 1), whole)
    ensures forall o, i :: 0 <= o < plan.Planned() && 0 <= i < |tables| ==>
              (plan.IdAt(o) in tables[i] <==> i == o % |tables|)
    ensures forall i, id :: 0 <= i < |tables| && id in tables[i] ==>
              id in whole && tables[i][id].core == whole[id].core
  {
    forall o, i | 0 <= o < plan.Planned() && 0 <= i < |tables|
      ensures plan.IdAt(o) in tables[i] <==> i == o % |tables|
    {
      if plan.IdAt(o) in tables[i] {
        assert Justified(plan, Shard(i, |tables|), plan.IdAt(o), tables[i][plan.IdAt(o)]);
      }
    }
    forall i, id | 0 <= i < |tables| && id in tables[i] ensures id in whole && tables[i][id].core == whole[id].core {
      assert Justified(plan, Shard(i, |tables|), id, tables[i][id]);
      var o :| 0 <= o < plan.Planned() && plan.IdAt(o) == id && plan.CoreAt(o) == tables[i][id].core;
      WholeEntry(plan, whole, o);
    }
  }

  lemma WholeEntry<Image, Core>(plan: Plan<Image, Core>, whole: Table<Core>, o: nat)
    requires plan.DistinctIds() && o < plan.Planned()
    requires Sound(plan, Shard(0, 1), whole) && Covers(plan, Shard(0, 1), whole)
    ensures plan.IdAt(o) in whole && whole[plan.IdAt(o)].core == plan.CoreAt(o)
  {
    assert Shard(0, 1).Owns(o);
    assert plan.IdAt(o) in whole;
    assert Justified(plan, Shard(0, 1), plan.IdAt(o), whole[plan.IdAt(o)]);
  }

  // ----- the runner

  datatype Status = Complete | CompleteWithErrors | CompleteShard | CompleteShardWithErrors | Partial

  datatype Summary = Summary(status: Status, planned: nat, plannedShard: nat, completed: nat, failed: nat)

  /** The identity a checkpoint is bound to: every contract hash of the plan,
      and the shard. */
  datatype RunIdentity = RunIdentity(plan: string, shard: Shard)

  datatype Ending = BadRequest | ForeignCheckpoint | Died | Exported(summary: Summary)

  function Summarize<Image, Core>(plan: Plan<Image, Core>, shard: Shard, rows: Table<Core>): Summary
    requires shard.Valid()
  {
    var failed := |set id | id in rows && plan.failed(rows[id].core)|;
    var done := |rows| == PlannedRows(plan, shard);
    var status := if done && shard.count == 1 then (if failed > 0 then CompleteWithErrors else Complete)
                  else if done then (if failed > 0 then CompleteShardWithErrors else CompleteShard)
                  else Partial;
    Summary(status, plan.Planned(), PlannedRows(plan, shard), |rows|, failed)
  }

  /** The exported status tells exactly whether every row of the shard, or of
      the whole plan, is present and whether one of them failed. */
  lemma StatusTruthful<Image, Core>(plan: Plan<Image, Core>, shard: Shard, rows: Table<Core>)
    requires shard.Valid() && plan.DistinctIds() && Sound(plan, shard, rows)
    ensures var status := Summarize(plan, shard, rows).status;
            var failed := exists id :: id in rows && plan.failed(rows[id].core);
            && (status == Partial <==> !Covers(plan, shard, rows))
            && (status == Complete || status == CompleteWithErrors <==>
                shard.count == 1 && forall o :: 0 <= o < plan.Planned() ==> plan.IdAt(o) in rows)
            && (status == CompleteWithErrors || status == CompleteShardWithErrors <==>
                Covers(plan, shard, rows) && failed)
  {
    CompleteByCount(plan, shard, rows);
    SomeFailed(plan, rows);
    if shard.count == 1 { OnlyShard(shard); }
  }

  lemma {:induction false} ShardSize(shard: Shard, n: nat)
    requires shard.Valid()
    ensures Count(n, Owned(shard)) == n / shard.count + if shard.index < n % shard.count then 1 else 0
  {
    if n == 0 {
      DivModUnique(0, 0, shard.count);
    } else {
      ShardSize(shard, n - 1);
      NextOrdinal(n - 1, shard.count);
    }
  }

  lemma NextOrdinal(o: nat, count: nat)
    requires count > 0
    ensures o % count < count - 1 ==> (o + 1) / count == o / count && (o + 1) % count == o % count + 1
    ensures o % count == count - 1 ==> (o + 1) / count == o / count + 1 && (o + 1) % count == 0
  {
    DivMod(o, count);
    if o % count < count - 1 {
      DivModUnique(o + 1, o / count, count);
    } else {
      Distributes(o / count, count);
      DivModUnique(o + 1, o / count + 1, count);
    }
  }

  lemma Distributes(x: nat, count: nat)
    ensures (x + 1) * count == x * count + count
  {
  }

  function ShardRows<Image, Core>(plan: Plan<Image, Core>, count: nat): nat -> nat
    requires count > 0
  {
    (i: nat) => if i < count then PlannedRows(plan, Shard(i, count)) else 0
  }

  /** The shards of one plan differ by at most one row, the first ones holding
      the remainder, and add up to the plan. */
  lemma ShardsAddUp<Image, Core>(plan: Plan<Image, Core>, count: nat)
    requires count > 0
    ensures Total(count, ShardRows(plan, count)) == plan.Planned()
    ensures forall i: nat :: i < count ==>
              PlannedRows(plan, Shard(i, count))
              == plan.Planned() / count + if i < plan.Planned() % count then 1 else 0
  {
    var n := plan.Planned();
    var owns := (o: nat, i: nat) => i < count && Shard(i, count).Owns(o);
    DoubleCount(n, count, owns);
    forall o: nat | o < n ensures RowCount(count, owns)(o) == 1 {
      CountOne(count, RowOf(owns, o), o % count);
    }
    TotalOnes(n, RowCount(count, owns));
    forall i: nat | i < count ensures ColumnCount(n, owns)(i) == ShardRows(plan, count)(i) {
      CountSame(n, (o: nat) => owns(o, i), Owned(Shard(i, count)));
    }
    TotalSame(count, ColumnCount(n, owns), ShardRows(plan, count));
    forall i: nat | i < count
      ensures PlannedRows(plan, Shard(i, count)) == n / count + if i < n % count then 1 else 0
    {
      ShardSize(Shard(i, count), n);
    }
  }

  /** A planned case of the shard whose row is present and failed. */
  ghost function Failing<Image, Core>(plan: Plan<Image, Core>, shard: Shard, rows: Table<Core>): nat -> bool
    requires shard.Valid()
  {
    (o: nat) => Present(plan, shard, rows)(o) && plan.failed(plan.CoreAt(o))
  }

  /** The counts of a summary are counts of planned cases: all of the plan, the
      shard's share, those with a row, and those whose row failed. */
  lemma SummaryCounts<Image, Core>(plan: Plan<Image, Core>, shard: Shard, rows: Table<Core>)
    requires shard.Valid() && plan.DistinctIds() && Sound(plan, shard, rows)
    ensures var s := Summarize(plan, shard, rows);
            && s.planned == plan.pages * plan.candidates * plan.attacks
            && s.plannedShard == s.planned / shard.count + (if shard.index < s.planned % shard.count then 1 else 0)
            && s.completed == Count(s.planned, Present(plan, shard, rows))
            && s.failed == Count(s.planned, Failing(plan, shard, rows))
            && s.failed <= s.completed <= s.plannedShard <= s.planned
  {
    PlanSize(plan);
    ShardSize(shard, plan.Planned());
    RowsArePresent(plan, shard, rows);
    FailuresCounted(plan, shard, rows);
    CountsNest(plan, shard, rows, plan.Planned());
  }

  lemma PlanSize<Image, Core>(plan: Plan<Image, Core>)
    ensures plan.Planned() == plan.pages * plan.candidates * plan.attacks
  {
  }

  lemma CountsNest<Image, Core>(plan: Plan<Image, Core>, shard: Shard, rows: Table<Core>, n: nat)
    requires shard.Valid()
    ensures Count(n, Failing(plan, shard, rows)) <= Count(n, Present(plan, shard, rows)) <= Count(n, Owned(shard)) <= n
  {
    CountLess(n, Failing(plan, shard, rows), Present(plan, shard, rows));
    CountLess(n, Present(plan, shard, rows), Owned(shard));
  }

  lemma FailuresCounted<Image, Core>(plan: Plan<Image, Core>, shard: Shard, rows: Table<Core>)
    requires shard.Valid() && plan.DistinctIds() && Sound(plan, shard, rows)
    ensures |set id | id in rows && plan.failed(rows[id].core)| == Count(plan.Planned(), Failing(plan, shard, rows))
  {
    var failures := set id | id in rows && plan.failed(rows[id].core);
    var id := (o: nat) => if o < plan.Planned() then plan.IdAt(o) else "";
    forall x | x in failures
      ensures exists o: nat :: o < plan.Planned() && Failing(plan, shard, rows)(o) && id(o) == x
    {
      assert Justified(plan, shard, x, rows[x]);
      var o: nat :| o < plan.Planned() && shard.Owns(o) && plan.IdAt(o) == x && plan.CoreAt(o) == rows[x].core;
      assert Failing(plan, shard, rows)(o) && id(o) == x;
    }
    forall o: nat | o < plan.Planned() && Failing(plan, shard, rows)(o) ensures id(o) in failures {
      PresentCore(plan, shard, rows, o);
    }
    CountImage(plan.Planned(), Failing(plan, shard, rows), id, failures);
  }

  lemma PresentCore<Image, Core>(plan: Plan<Image, Core>, shard: Shard, rows: Table<Core>, o: nat)
    requires shard.Valid() && plan.DistinctIds() && Sound(plan, shard, rows) && Present(plan, shard, rows)(o)
    ensures rows[plan.IdAt(o)].core == plan.CoreAt(o)
  {
    assert Justified(plan, shard, plan.IdAt(o), rows[plan.IdAt(o)]);
  }

  lemma SomeFailed<Image, Core>(plan: Plan<Image, Core>, rows: Table<Core>)
    ensures |set id | id in rows && plan.failed(rows[id].core)| > 0
            <==> exists id :: id in rows && plan.failed(rows[id].core)
  {
    var failures := set id | id in rows && plan.failed(rows[id].core);
    if failures != {} {
      var id :| id in failures;
      assert id in rows && plan.failed(rows[id].core);
    }
    if exists id :: id in rows && plan.failed(rows[id].core) {
      var id :| id in rows && plan.failed(rows[id].core);
      assert id in failures;
    }
  }

  lemma OnlyShard(shard: Shard)
    requires shard.Valid() && shard.count == 1
    ensures forall o: nat :: shard.Owns(o)
  {
  }

  datatype Scheduled = Scheduled(ordinal: nat, attack: nat, rowId: string)

  datatype Fate = Finished | Stopped | Dead

  /** From ordinal n on the two tables have the same rows. */
  ghost predicate SameFrom<Image, Core>(plan: Plan<Image, Core>, rows: Table<Core>, initial: Table<Core>, n: nat) {
    forall o :: n <= o < plan.Planned() ==> (plan.IdAt(o) in rows <==> plan.IdAt(o) in initial)
  }

  /** The queue holds the pending ordinals from base on, as cases of one page
      and candidate. */
  ghost predicate Queued<Image, Core>(plan: Plan<Image, Core>, shard: Shard, rows: Table<Core>, base: nat, end: nat,
                                      page: nat, candidate: nat, queue: seq<Scheduled>)
    requires shard.Valid() && base <= end <= plan.Planned()
  {
    && Pending(plan, shard, rows, end) == Pending(plan, shard, rows, base) + Ordinals(queue)
    && AreCases(plan, page, candidate, queue)
  }

  ghost predicate AreCases<Image, Core>(plan: Plan<Image, Core>, page: nat, candidate: nat, queue: seq<Scheduled>) {
    forall k :: 0 <= k < |queue| ==> IsCase(plan, page, candidate, queue[k])
  }

  ghost predicate IsCase<Image, Core>(plan: Plan<Image, Core>, page: nat, candidate: nat, s: Scheduled) {
    && s.ordinal < plan.Planned() && plan.CaseAt(s.ordinal) == Case(page, candidate, s.attack)
    && s.rowId == plan.IdAt(s.ordinal)
  }

  function Ordinals(queue: seq<Scheduled>): (o: seq<nat>)
    ensures |o| == |queue|
  {
    if queue == [] then [] else Ordinals(queue[..|queue| - 1]) + [queue[|queue| - 1].ordinal]
  }

  lemma QueueOne(queue: seq<Scheduled>, s: Scheduled)
    ensures Ordinals(queue + [s]) == Ordinals(queue) + [s.ordinal]
  {
    assert (queue + [s])[..|queue|] == queue;
  }

  lemma {:induction false} OrdinalsPrefix(queue: seq<Scheduled>, n: nat)
    requires n <= |queue|
    ensures Ordinals(queue[..n]) == Ordinals(queue)[..n]
  {
    if n == |queue| {
      assert queue[..n] == queue && Ordinals(queue)[..n] == Ordinals(queue);
    } else {
      assert queue[..|queue| - 1][..n] == queue[..n];
      OrdinalsPrefix(queue[..|queue| - 1], n);
    }
  }

  /** The table once the first i rows of a queue are committed after `done`. */
  function Partway<Image, Core>(plan: Plan<Image, Core>, initial: Table<Core>, done: seq<nat>, queue: seq<Scheduled>,
                                i: nat, noise: nat -> int): Table<Core>
    requires i <= |queue|
  {
    Committed(plan, initial, done + Ordinals(queue[..i]), noise)
  }

  lemma QueueStart<Image, Core>(plan: Plan<Image, Core>, initial: Table<Core>, done: seq<nat>, queue: seq<Scheduled>,
                                noise: nat -> int)
    ensures Partway(plan, initial, done, queue, 0, noise) == Committed(plan, initial, done, noise)
  {
    assert done + Ordinals(queue[..0]) == done;
  }

  class Checkpoint<Core> {
    var identity: Option<RunIdentity>
    var rows: Table<Core>

    constructor ()
      ensures identity == None && rows == map[]
    {
      identity, rows := None, map[];
    }

    /** Collects the attacks of one page and candidate that this shard still
        owes, advancing the global ordinal past all of them. */
    method ScheduleCandidate<Image>(plan: Plan<Image, Core>, shard: Shard, page: nat, candidate: nat, start: nat,
                                    ghost initial: Table<Core>)
      returns (queue: seq<Scheduled>, ordinal: nat)
      requires shard.Valid() && page < plan.pages && candidate < plan.candidates
      requires start == (page * plan.candidates + candidate) * plan.attacks
      requires SameFrom(plan, rows, initial, start)
      ensures ordinal == start + plan.attacks <= plan.Planned()
      ensures Queued(plan, shard, initial, start, ordinal, page, candidate, queue)
    {
      queue, ordinal := [], start;
      BlockEnd(plan, page, candidate);
      for attack := 0 to plan.attacks
        invariant ordinal == start + attack <= plan.Planned()
        invariant Queued(plan, shard, initial, start, ordinal, page, candidate, queue)
      {
        OrdinalOfCase(plan, Case(page, candidate, attack));
        var rowId := plan.rowId(Case(page, candidate, attack));
        var belongs := shard.Owns(ordinal);
        ordinal := ordinal + 1;
        if belongs && rowId !in rows {
          QueueOne(queue, Scheduled(ordinal - 1, attack, rowId));
          queue := queue + [Scheduled(ordinal - 1, attack, rowId)];
        }
      }
    }

    /** Executes one scheduled attack and commits its row. */
    method CommitRow<Image>(plan: Plan<Image, Core>, page: nat, candidate: nat, image: Image, queue: seq<Scheduled>,
                            i: nat, noise: nat -> int, ghost initial: Table<Core>, ghost done: seq<nat>)
      requires i < |queue| && IsCase(plan, page, candidate, queue[i]) && image == plan.embed(page, candidate)
      requires rows == Partway(plan, initial, done, queue, i, noise)
      modifies `rows
      ensures rows == Partway(plan, initial, done, queue, i + 1, noise)
    {
      var item := queue[i];
      CommitNext(plan, page, candidate, initial, done, queue, i, noise);
      rows := rows[item.rowId := Row(plan.execute(image, item.attack), noise(item.ordinal))];
    }

    /** Runs one candidate's queue, committing every row before the next. */
    method ExecuteQueue<Image>(plan: Plan<Image, Core>, page: nat, candidate: nat, queue: seq<Scheduled>,
                               session: Session, spent: nat, newRows: nat, ghost initial: Table<Core>,
                               ghost done: seq<nat>)
      returns (fate: Fate, newRows': nat)
      requires AreCases(plan, page, candidate, queue)
      requires rows == Committed(plan, initial, done, session.noise)
      requires WithinLimits(session, spent, newRows)
      modifies `rows
      ensures newRows <= newRows' <= newRows + |queue| && WithinLimits(session, spent, newRows')
      ensures rows == Partway(plan, initial, done, queue, newRows' - newRows, session.noise)
      ensures fate == Finished <==> newRows' == newRows + |queue|
      ensures fate == Stopped ==> session.maxRows == Some(newRows')
      ensures fate == Dead ==> session.life == Some(newRows' + spent)
    {
      var image := plan.embed(page, candidate);
      newRows' := newRows;
      QueueStart(plan, initial, done, queue, session.noise);
      for i := 0 to |queue|
        invariant newRows' == newRows + i && WithinLimits(session, spent, newRows')
        invariant rows == Partway(plan, initial, done, queue, i, session.noise)
      {
        if session.maxRows.Some? && newRows' >= session.maxRows.value { return Stopped, newRows'; }
        if session.life.Some? && newRows' + spent >= session.life.value { return Dead, newRows'; }
        CommitRow(plan, page, candidate, image, queue, i, session.noise, initial, done);
        newRows' := newRows' + 1;
      }
      fate := Finished;
    }

    method RunCandidate<Image>(plan: Plan<Image, Core>, shard: Shard, page: nat, candidate: nat, session: Session,
                               spent: nat, newRows: nat, ordinal: nat, ghost initial: Table<Core>)
      returns (fate: Fate, newRows': nat, ordinal': nat)
      requires shard.Valid() && plan.DistinctIds() && page < plan.pages && candidate < plan.candidates
      requires ordinal == (page * plan.candidates + candidate) * plan.attacks
      requires Progress(plan, shard, initial, rows, session, spent, Finished, newRows, ordinal)
      modifies `rows
      ensures Progress(plan, shard, initial, rows, session, spent, fate, newRows', ordinal')
      ensures ordinal' == ordinal + plan.attacks
    {
      LaterUntouched(plan, shard, initial, rows, session, spent, newRows, ordinal);
      var queue;
      queue, ordinal' := ScheduleCandidate(plan, shard, page, candidate, ordinal, initial);
      fate, newRows' := ExecuteScheduled(plan, shard, page, candidate, queue, session, spent, newRows, ordinal,
                                         ordinal', initial);
    }

    /** Nothing is embedded for a candidate that owes no rows. */
    method ExecuteScheduled<Image>(plan: Plan<Image, Core>, shard: Shard, page: nat, candidate: nat,
                                   queue: seq<Scheduled>, session: Session, spent: nat, newRows: nat,
                                   ghost base: nat, ghost end: nat, ghost initial: Table<Core>)
      returns (fate: Fate, newRows': nat)
      requires shard.Valid() && base <= end <= plan.Planned()
      requires Queued(plan, shard, initial, base, end, page, candidate, queue)
      requires Progress(plan, shard, initial, rows, session, spent, Finished, newRows, base)
      modifies `rows
      ensures Progress(plan, shard, initial, rows, session, spent, fate, newRows', end)
    {
      ghost var done := Pending(plan, shard, initial, base);
      fate, newRows' := Finished, newRows;
      QueueStart(plan, initial, done, queue, session.noise);
      if queue != [] {
        fate, newRows' := ExecuteQueue(plan, page, candidate, queue, session, spent, newRows, initial, done);
      }
      QueueDone(plan, shard, initial, rows, session, spent, fate, newRows', base, end, queue, newRows' - newRows);
    }

    method RunPage<Image>(plan: Plan<Image, Core>, shard: Shard, page: nat, session: Session, spent: nat, newRows: nat,
                          ordinal: nat, ghost initial: Table<Core>)
      returns (fate: Fate, newRows': nat, ordinal': nat)
      requires shard.Valid() && plan.DistinctIds() && page < plan.pages && ordinal == page * plan.Block()
      requires Progress(plan, shard, initial, rows, session, spent, Finished, newRows, ordinal)
      modifies `rows
      ensures Progress(plan, shard, initial, rows, session, spent, fate, newRows', ordinal')
      ensures fate == Finished ==> ordinal' == (page + 1) * plan.Block()
    {
      fate, newRows', ordinal' := Finished, newRows, ordinal;
      PageStart(plan, page);
      for candidate := 0 to plan.candidates
        invariant Progress(plan, shard, initial, rows, session, spent, fate, newRows', ordinal')
        invariant fate == Finished
        invariant ordinal' == (page * plan.candidates + candidate) * plan.attacks
      {
        fate, newRows', ordinal' :=
          RunCandidate(plan, shard, page, candidate, session, spent, newRows', ordinal', initial);
        if fate != Finished { return; }
        NextBlock(page * plan.candidates + candidate, plan.attacks);
      }
      PageStart(plan, page + 1);
      NextPage(page, plan.candidates);
    }

    /** Pages outermost, then candidates, each with its own queue. */
    method RunPlan<Image>(plan: Plan<Image, Core>, shard: Shard, session: Session, spent: nat)
      returns (fate: Fate, newRows: nat)
      requires shard.Valid() && plan.DistinctIds() && WithinLimits(session, spent, 0)
      modifies `rows
      ensures rows == After(plan, shard, old(rows), session, spent)
      ensures newRows == |Todo(plan, shard, old(rows), session, spent)| && WithinLimits(session, spent, newRows)
      ensures fate == Dead ==> session.life == Some(newRows + spent)
    {
      ghost var initial := rows;
      fate, newRows := Finished, 0;
      var ordinal := 0;
      for page := 0 to plan.pages
        invariant Progress(plan, shard, initial, rows, session, spent, fate, newRows, ordinal)
        invariant fate == Finished && ordinal == page * plan.Block()
      {
        fate, newRows, ordinal := RunPage(plan, shard, page, session, spent, newRows, ordinal, initial);
        if fate != Finished { return; }
      }
      AllDone(plan, shard, initial, rows, session, spent, newRows);
    }

    /** Counts what the export reports. */
    method Export<Image>(plan: Plan<Image, Core>, shard: Shard) returns (summary: Summary)
      requires shard.Valid()
      ensures summary == Summarize(plan, shard, rows)
    {
      var planned := 0;
      for ordinal := 0 to plan.Planned()
        invariant planned == Count(ordinal, Owned(shard))
      {
        if shard.Owns(ordinal) { planned := planned + 1; }
      }
      var completed := |rows|;
      var failed := |set id | id in rows && plan.failed(rows[id].core)|;
      var completeShard := completed == planned;
      var complete := completeShard && shard.count == 1;
      var status := if complete && failed > 0 then CompleteWithErrors
                    else if complete then Complete
                    else if completeShard && failed > 0 then CompleteShardWithErrors
                    else if completeShard then CompleteShard
                    else Partial;
      summary := Summary(status, plan.Planned(), planned, completed, failed);
    }

    /** One sitting: validates the request, binds the checkpoint to this run or
        refuses a foreign one, executes what is missing, and exports. */
    method Run<Image>(plan: Plan<Image, Core>, shard: Shard, session: Session) returns (ending: Ending)
      requires plan.DistinctIds()
      modifies this
      ensures ending == BadRequest <==> !shard.Valid() || session.maxRows == Some(0)
      ensures ending == ForeignCheckpoint <==>
              ending != BadRequest && old(identity).Some? && old(identity) != Some(RunIdentity(plan.identity, shard))
      ensures ending == BadRequest || ending == ForeignCheckpoint ==> rows == old(rows) && identity == old(identity)
      ensures ending.Died? || ending.Exported? ==>
              Disk(identity.Some?, rows) == Step(plan, shard, Disk(old(identity).Some?, old(rows)), session)
      ensures identity.Some? && ending != ForeignCheckpoint && ending != BadRequest ==>
              identity == Some(RunIdentity(plan.identity, shard))
      ensures ending.Exported? ==> ending.summary == Summarize(plan, shard, rows)
      ensures session.life.None? ==> !ending.Died?
    {
      if !shard.Valid() || session.maxRows == Some(0) { return BadRequest; }
      var mine := RunIdentity(plan.identity, shard);
      var spent := 0;
      if identity.None? {
        if session.life == Some(0) { return Died; }
        identity := Some(mine);
        spent := 1;
      } else if identity.value != mine {
        return ForeignCheckpoint;
      }
      var fate, newRows := RunPlan(plan, shard, session, spent);
      if fate == Dead || session.life == Some(newRows + spent) { return Died; }
      var summary := Export(plan, shard);
      return Exported(summary);
    }
  }

  lemma PageStart<Image, Core>(plan: Plan<Image, Core>, page: nat)
    ensures page * plan.candidates * plan.attacks == page * plan.Block()
  {
  }

  lemma NextBlock(block: nat, size: nat)
    ensures block * size + size == (block + 1) * size
  {
  }

  lemma NextPage(page: nat, candidates: nat)
    ensures page * candidates + candidates == (page + 1) * candidates
  {
  }

  /** Between queues: everything pending below the ordinal is committed, or
      the session ended and committed all it could. */
  ghost predicate Progress<Image, Core>(plan: Plan<Image, Core>, shard: Shard, initial: Table<Core>, rows: Table<Core>,
                                        session: Session, spent: nat, fate: Fate, newRows: nat, ordinal: nat)
    requires shard.Valid()
  {
    && WithinLimits(session, spent, newRows)
    && (fate == Dead ==> session.life == Some(newRows + spent))
    && if fate == Finished then
         && ordinal <= plan.Planned()
         && rows == Committed(plan, initial, Pending(plan, shard, initial, ordinal), session.noise)
         && newRows == |Pending(plan, shard, initial, ordinal)|
       else
         && rows == After(plan, shard, initial, session, spent)
         && newRows == |Todo(plan, shard, initial, session, spent)|
  }

  ghost predicate WithinLimits(session: Session, spent: nat, newRows: nat) {
    && (session.maxRows.Some? ==> newRows <= session.maxRows.value)
    && (session.life.Some? ==> newRows + spent <= session.life.value)
  }

  lemma CommitNext<Image, Core>(plan: Plan<Image, Core>, page: nat, candidate: nat, initial: Table<Core>,
                                done: seq<nat>, queue: seq<Scheduled>, i: nat, noise: nat -> int)
    requires i < |queue| && IsCase(plan, page, candidate, queue[i])
    ensures Committed(plan, initial, done + Ordinals(queue[..i + 1]), noise) ==
            Committed(plan, initial, done + Ordinals(queue[..i]), noise)
              [queue[i].rowId := Row(plan.execute(plan.embed(page, candidate), queue[i].attack),
                                     noise(queue[i].ordinal))]
  {
    var item := queue[i];
    CommitOne(plan, initial, done + Ordinals(queue[..i]), item.ordinal, noise);
    QueueOne(queue[..i], item);
    assert plan.CoreAt(item.ordinal) == plan.execute(plan.embed(page, candidate), item.attack);
    assert queue[..i + 1] == queue[..i] + [item];
    assert done + Ordinals(queue[..i + 1]) == (done + Ordinals(queue[..i])) + [item.ordinal];
  }

  /** A prefix of the queue is a prefix of its ordinals. */
  lemma PartwayOrdinals<Image, Core>(plan: Plan<Image, Core>, initial: Table<Core>, done: seq<nat>,
                                     queue: seq<Scheduled>, n: nat, noise: nat -> int)
    requires n <= |queue|
    ensures Partway(plan, initial, done, queue, n, noise)
         == Committed(plan, initial, done + Ordinals(queue)[..n], noise)
  {
    OrdinalsPrefix(queue, n);
  }

  lemma QueueFinished<Image, Core>(plan: Plan<Image, Core>, shard: Shard, initial: Table<Core>, rows: Table<Core>,
                                   session: Session, spent: nat, newRows: nat, base: nat, end: nat,
                                   queue: seq<Scheduled>)
    requires shard.Valid() && base <= end <= plan.Planned() && WithinLimits(session, spent, newRows)
    requires Pending(plan, shard, initial, end) == Pending(plan, shard, initial, base) + Ordinals(queue)
    requires newRows == |Pending(plan, shard, initial, base)| + |queue|
    requires rows == Partway(plan, initial, Pending(plan, shard, initial, base), queue, |queue|, session.noise)
    ensures Progress(plan, shard, initial, rows, session, spent, Finished, newRows, end)
  {
    PartwayOrdinals(plan, initial, Pending(plan, shard, initial, base), queue, |queue|, session.noise);
    assert Ordinals(queue)[..|queue|] == Ordinals(queue);
  }

  lemma QueueStopped<Image, Core>(plan: Plan<Image, Core>, shard: Shard, initial: Table<Core>, rows: Table<Core>,
                                  session: Session, spent: nat, fate: Fate, newRows: nat, base: nat, end: nat,
                                  queue: seq<Scheduled>, n: nat)
    requires shard.Valid() && base <= end <= plan.Planned() && WithinLimits(session, spent, newRows)
    requires Pending(plan, shard, initial, end) == Pending(plan, shard, initial, base) + Ordinals(queue)
    requires n < |queue| && newRows == |Pending(plan, shard, initial, base)| + n && fate != Finished
    requires rows == Partway(plan, initial, Pending(plan, shard, initial, base), queue, n, session.noise)
    requires fate == Stopped ==> session.maxRows == Some(newRows)
    requires fate == Dead ==> session.life == Some(newRows + spent)
    ensures Progress(plan, shard, initial, rows, session, spent, fate, newRows, end)
  {
    PartwayOrdinals(plan, initial, Pending(plan, shard, initial, base), queue, n, session.noise);
    LimitReached(plan, shard, initial, session, spent, newRows, base, end, Ordinals(queue), n);
  }

  lemma QueueDone<Image, Core>(plan: Plan<Image, Core>, shard: Shard, initial: Table<Core>, rows: Table<Core>,
                               session: Session, spent: nat, fate: Fate, newRows: nat, base: nat, end: nat,
                               queue: seq<Scheduled>, n: nat)
    requires shard.Valid() && base <= end <= plan.Planned() && WithinLimits(session, spent, newRows)
    requires Pending(plan, shard, initial, end) == Pending(plan, shard, initial, base) + Ordinals(queue)
    requires n <= |queue| && newRows == |Pending(plan, shard, initial, base)| + n
    requires rows == Partway(plan, initial, Pending(plan, shard, initial, base), queue, n, session.noise)
    requires fate == Finished <==> n == |queue|
    requires fate == Stopped ==> session.maxRows == Some(newRows)
    requires fate == Dead ==> session.life == Some(newRows + spent)
    ensures Progress(plan, shard, initial, rows, session, spent, fate, newRows, end)
  {
    if fate == Finished {
      QueueFinished(plan, shard, initial, rows, session, spent, newRows, base, end, queue);
    } else {
      QueueStopped(plan, shard, initial, rows, session, spent, fate, newRows, base, end, queue, n);
    }
  }

  lemma LimitReached<Image, Core>(plan: Plan<Image, Core>, shard: Shard, initial: Table<Core>, session: Session,
                                  spent: nat, newRows: nat, base: nat, end: nat, queue: seq<nat>, n: nat)
    requires shard.Valid() && base <= end <= plan.Planned() && WithinLimits(session, spent, newRows)
    requires Pending(plan, shard, initial, end) == Pending(plan, shard, initial, base) + queue
    requires n < |queue| && newRows == |Pending(plan, shard, initial, base)| + n
    requires session.maxRows == Some(newRows) || session.life == Some(newRows + spent)
    ensures Todo(plan, shard, initial, session, spent) == Pending(plan, shard, initial, base) + queue[..n]
  {
    var all := Pending(plan, shard, initial, plan.Planned());
    PendingPrefix(plan, shard, initial, end, plan.Planned());
    PendingInRange(plan, shard, initial, plan.Planned());
    Truncated(all, Pending(plan, shard, initial, base), queue, n);
    assert Limit(session, spent, plan.Planned()) == newRows;
  }

  lemma Truncated(all: seq<nat>, done: seq<nat>, queue: seq<nat>, n: nat)
    requires done + queue <= all && n < |queue|
    ensures done + queue[..n] == First(all, |done| + n)
  {
  }

  lemma AllDone<Image, Core>(plan: Plan<Image, Core>, shard: Shard, initial: Table<Core>, rows: Table<Core>,
                             session: Session, spent: nat, newRows: nat)
    requires shard.Valid()
    requires Progress(plan, shard, initial, rows, session, spent, Finished, newRows, plan.Planned())
    ensures rows == After(plan, shard, initial, session, spent)
    ensures newRows == |Todo(plan, shard, initial, session, spent)|
  {
    PendingInRange(plan, shard, initial, plan.Planned());
  }

  /** Rows committed so far leave later ordinals as they were. */
  lemma LaterUntouched<Image, Core>(plan: Plan<Image, Core>, shard: Shard, initial: Table<Core>, rows: Table<Core>,
                                    session: Session, spent: nat, newRows: nat, n: nat)
    requires shard.Valid() && plan.DistinctIds() && n <= plan.Planned()
    requires Progress(plan, shard, initial, rows, session, spent, Finished, newRows, n)
    ensures SameFrom(plan, rows, initial, n)
  {
    var done := Pending(plan, shard, initial, n);
    PendingMissing(plan, shard, initial, n);
    forall o | n <= o < plan.Planned() ensures plan.IdAt(o) in rows <==> plan.IdAt(o) in initial {
      CommittedIds(plan, initial, done, session.noise, plan.IdAt(o));
      forall d | d in done ensures plan.IdAt(d) != plan.IdAt(o) {
        assert d < n;
      }
    }
  }
}
