/** Progress of the relay: how many commits any run can contain, and how long an eligible row
    can be passed over. */
module RelayProgress {
  import opened Wrappers
  import opened Outbox
  import opened RelaySystem
  import opened RelaySafety
  import opened RelayHistory
  import opened RelayTheorems

  /** Attempts a row has left; none once it is SENT, DEAD or gone. */
  function AttemptsLeft(cfg: Config, rows: Table, id: EventId): nat {
    if id in rows && rows[id].Live() && rows[id].attempts < cfg.maxAttempts
    then cfg.maxAttempts - rows[id].attempts else 0
  }

  ghost function Budget(cfg: Config, rows: Table, ids: set<EventId>): nat {
    if exists x :: x in ids
    then AttemptsLeft(cfg, rows, Pick(ids)) + Budget(cfg, rows, ids - {Pick(ids)})
    else 0
  }

  lemma {:induction false} BudgetDrops(cfg: Config, rows: Table, rows': Table, ids: set<EventId>, served: set<EventId>)
    requires served <= ids
    requires forall id :: id in ids ==> AttemptsLeft(cfg, rows', id) <= AttemptsLeft(cfg, rows, id)
    requires forall id :: id in served ==> AttemptsLeft(cfg, rows', id) < AttemptsLeft(cfg, rows, id)
    ensures Budget(cfg, rows', ids) + |served| <= Budget(cfg, rows, ids)
    decreases |ids|
  {
    if exists x :: x in ids {
      var x := Pick(ids);
      BudgetDrops(cfg, rows, rows', ids - {x}, served - {x});
    } else {
      assert served == {};
    }
  }

  lemma {:induction false} SpentBudget(cfg: Config, rows: Table, ids: set<EventId>, id: EventId)
    requires id in ids && Budget(cfg, rows, ids) == 0
    ensures AttemptsLeft(cfg, rows, id) == 0
    decreases |ids|
  {
    if id != Pick(ids) {
      SpentBudget(cfg, rows, ids - {Pick(ids)}, id);
    }
  }

  /** No step gives a known event attempts back, and a commit takes one from every row it claimed. */
  lemma StepSpends(cfg: Config, s: State, step: Step, id: EventId)
    requires cfg.Accepted() && Inv(cfg, s) && Enabled(cfg, s, step) && id in s.stamps
    ensures AttemptsLeft(cfg, Apply(cfg, s, step).rows, id) <= AttemptsLeft(cfg, s.rows, id)
    ensures step.Commit? && id in Ids(s.open[step.batch].events) ==>
              AttemptsLeft(cfg, Apply(cfg, s, step).rows, id) < AttemptsLeft(cfg, s.rows, id)
  {
    if id in s.rows {
      assert RowOk(cfg, s.rows[id]);
    }
    if step.Commit? {
      var _ := CommitRow(cfg, s, step, id);
    }
  }

  /** The rows of `ids` that a step commits. */
  ghost function Served(s: State, step: Step, ids: set<EventId>): set<EventId> {
    if step.Commit? && step.batch in s.open then Ids(s.open[step.batch].events) * ids else {}
  }

  lemma StepSpendsBudget(cfg: Config, s: State, step: Step, ids: set<EventId>)
    requires cfg.Accepted() && Inv(cfg, s) && Enabled(cfg, s, step) && ids <= s.stamps.Keys
    ensures Budget(cfg, Apply(cfg, s, step).rows, ids) + |Served(s, step, ids)| <= Budget(cfg, s.rows, ids)
    ensures ids <= Apply(cfg, s, step).stamps.Keys
  {
    forall id | id in ids
      ensures AttemptsLeft(cfg, Apply(cfg, s, step).rows, id) <= AttemptsLeft(cfg, s.rows, id)
      ensures id in Served(s, step, ids) ==>
                AttemptsLeft(cfg, Apply(cfg, s, step).rows, id) < AttemptsLeft(cfg, s.rows, id)
    {
      StepSpends(cfg, s, step, id);
    }
    BudgetDrops(cfg, s.rows, Apply(cfg, s, step).rows, ids, Served(s, step, ids));
  }

  // ----- Every run drains ------------------------------------------------------------------

  function Commits(steps: seq<Step>): nat {
    if steps == [] then 0 else Commits(steps[1..]) + if steps[0].Commit? then 1 else 0
  }

  predicate NoInserts(steps: seq<Step>) {
    forall i :: 0 <= i < |steps| ==> !steps[i].Insert?
  }

  /** Every row any open batch holds is in `ids`. */
  ghost predicate Covers(ids: set<EventId>, s: State) {
    s.rows.Keys <= ids <= s.stamps.Keys
  }

  lemma CommitSpends(cfg: Config, s: State, step: Step, ids: set<EventId>)
    requires cfg.Accepted() && Inv(cfg, s) && Enabled(cfg, s, step) && !step.Insert? && Covers(ids, s)
    ensures Budget(cfg, Apply(cfg, s, step).rows, ids) + (if step.Commit? then 1 else 0) <= Budget(cfg, s.rows, ids)
    ensures Covers(ids, Apply(cfg, s, step))
  {
    StepSpendsBudget(cfg, s, step, ids);
    if step.Commit? {
      var tx := s.open[step.batch];
      assert Held(cfg, s.rows, tx.now, tx.events[0]);
      assert tx.events[0].id in Served(s, step, ids);
    }
    StepKeepsCover(cfg, s, step, ids);
  }

  /** Whatever the broker does, every commit spends budget. */
  lemma {:induction false} CommitsSpendBudget(cfg: Config, s: State, steps: seq<Step>, ids: set<EventId>)
    requires cfg.Accepted() && Inv(cfg, s) && Run(cfg, s, steps) && NoInserts(steps) && Covers(ids, s)
    ensures Commits(steps) + Budget(cfg, Final(cfg, s, steps).rows, ids) <= Budget(cfg, s.rows, ids)
    ensures Covers(ids, Final(cfg, s, steps))
    decreases |steps|
  {
    hide Apply;
    hide Enabled;
    hide Inv;
    if steps != [] {
      var step := steps[0];
      CommitSpends(cfg, s, step, ids);
      StepKeepsInv(cfg, s, step);
      CommitsSpendBudget(cfg, Apply(cfg, s, step), steps[1..], ids);
    }
  }

  lemma StepKeepsCover(cfg: Config, s: State, step: Step, ids: set<EventId>)
    requires LockInv(cfg, s) && Enabled(cfg, s, step) && !step.Insert? && Covers(ids, s)
    ensures Covers(ids, Apply(cfg, s, step))
  {
  }

  /** Ranking: a run without inserts commits at most the attempts left in the table, and once
      it has committed that often no row is live. */
  lemma RunsDrain(cfg: Config, s: State, steps: seq<Step>)
    requires Reachable(cfg, s) && Run(cfg, s, steps) && NoInserts(steps)
    ensures Commits(steps) <= Budget(cfg, s.rows, s.rows.Keys)
    ensures Commits(steps) == Budget(cfg, s.rows, s.rows.Keys) ==>
              forall id :: id in Final(cfg, s, steps).rows ==> !Final(cfg, s, steps).rows[id].Live()
  {
    ReachableInv(cfg, s);
    var ids := s.rows.Keys;
    CommitsSpendBudget(cfg, s, steps, ids);
    RunKeepsInv(cfg, s, steps);
    var f := Final(cfg, s, steps);
    if Commits(steps) == Budget(cfg, s.rows, ids) {
      forall id | id in f.rows ensures !f.rows[id].Live() {
        assert RowOk(cfg, f.rows[id]);
        SpentBudget(cfg, f.rows, ids, id);
      }
    }
  }

  // ----- No starvation ---------------------------------------------------------------------

  /** Live rows other than `id` that sort no later than it. */
  function Ahead(s: State, id: EventId): set<EventId>
    requires id in s.rows
  {
    set x | x in s.rows && x != id && s.rows[x].Live() && s.rows[x].createdAt <= s.rows[id].createdAt
  }

  /** The step is no claim that takes row `id`: a claim finds it eligible and unlocked and still
      passes it over, and an inserted row is newer than `createdAt`. */
  ghost predicate Passes(cfg: Config, s: State, step: Step, id: EventId, createdAt: int)
    requires Enabled(cfg, s, step)
  {
    match step
    case Claim(b, ids) =>
      && Candidate(cfg, s.rows, LockedIds(s), s.open[b].now, id)
      && s.rows[id].createdAt == createdAt
      && id !in ids
    case Insert(_, _, at) => createdAt < at
    case _ => true
  }

  /** Throughout the run row `id` waits, eligible and unlocked at every claim, and is passed over. */
  ghost predicate PassedOver(cfg: Config, s: State, steps: seq<Step>, id: EventId, createdAt: int)
    requires Run(cfg, s, steps)
    decreases |steps|
  {
    steps == [] ||
    (Passes(cfg, s, steps[0], id, createdAt)
     && PassedOver(cfg, Apply(cfg, s, steps[0]), steps[1..], id, createdAt))
  }

  /** Commits of batches that claimed during the run (`since` collects them). */
  function ClaimedCommits(steps: seq<Step>, since: set<BatchId>): nat
    decreases |steps|
  {
    if steps == [] then 0
    else match steps[0]
      case Claim(b, _) => ClaimedCommits(steps[1..], since + {b})
      case Commit(b, _) => ClaimedCommits(steps[1..], since) + if b in since then 1 else 0
      case _ => ClaimedCommits(steps[1..], since)
  }

  /** `ids` contains all live rows that sort no later than `createdAt` except `id`. */
  ghost predicate Fenced(s: State, ids: set<EventId>, id: EventId, createdAt: int) {
    forall x :: x in s.rows && x != id && s.rows[x].Live() && s.rows[x].createdAt <= createdAt ==> x in ids
  }

  /** Batches claimed while the row waited are full of rows ahead of it. */
  ghost predicate FullOf(cfg: Config, s: State, ids: set<EventId>, since: set<BatchId>) {
    && since <= AllBatches(s)
    && forall b :: b in since && b in s.open ==> |s.open[b].events| == cfg.batchSize && Ids(s.open[b].events) <= ids
  }

  lemma {:induction false} IdsCount(events: seq<Event>)
    requires DistinctIds(events)
    ensures |Ids(events)| == |events|
  {
    if events != [] {
      var n := |events| - 1;
      IdsCount(events[..n]);
      assert events == events[..n] + [events[n]];
      assert Ids(events) == Ids(events[..n]) + {events[n].id};
    }
  }

  lemma StepKeepsFence(cfg: Config, s: State, step: Step, ids: set<EventId>, id: EventId, createdAt: int)
    requires LockInv(cfg, s) && Enabled(cfg, s, step) && Fenced(s, ids, id, createdAt)
    requires step.Insert? ==> createdAt < step.createdAt
    ensures Fenced(Apply(cfg, s, step), ids, id, createdAt)
  {
    var s' := Apply(cfg, s, step);
    forall x | x in s'.rows && x != id && s'.rows[x].Live() && s'.rows[x].createdAt <= createdAt ensures x in ids {
      if step.Commit? {
        var _ := CommitRow(cfg, s, step, x);
      }
    }
  }

  /** A claim that passes an eligible, unlocked row over fills its LIMIT with rows ahead of it. */
  lemma PassingClaimIsFull(cfg: Config, s: State, b: BatchId, claimed: seq<EventId>, ids: set<EventId>, id: EventId)
    requires LockInv(cfg, s) && Enabled(cfg, s, Claim(b, claimed))
    requires Candidate(cfg, s.rows, LockedIds(s), s.open[b].now, id) && id !in claimed
    requires Fenced(s, ids, id, s.rows[id].createdAt)
    ensures var events := Apply(cfg, s, Claim(b, claimed)).open[b].events;
            |events| == cfg.batchSize && Ids(events) <= ids
  {
    var events := Apply(cfg, s, Claim(b, claimed)).open[b].events;
    forall x | x in Ids(events) ensures x in ids {
      var i :| 0 <= i < |events| && events[i].id == x;
      assert Candidate(cfg, s.rows, LockedIds(s), s.open[b].now, claimed[i]);
    }
  }

  function Since(step: Step, since: set<BatchId>): set<BatchId> {
    if step.Claim? then since + {step.batch} else since
  }

  lemma FullOfKept(cfg: Config, s: State, step: Step, ids: set<EventId>, since: set<BatchId>)
    requires LockInv(cfg, s) && Enabled(cfg, s, step) && FullOf(cfg, s, ids, since)
    requires step.Claim? ==>
               |Apply(cfg, s, step).open[step.batch].events| == cfg.batchSize
               && Ids(Apply(cfg, s, step).open[step.batch].events) <= ids
    ensures FullOf(cfg, Apply(cfg, s, step), ids, Since(step, since))
  {
  }

  /** A commit of a batch claimed while the row waited serves a whole LIMIT of rows ahead of it. */
  lemma PassSpends(cfg: Config, s: State, step: Step, ids: set<EventId>, since: set<BatchId>)
    requires cfg.Accepted() && Inv(cfg, s) && Enabled(cfg, s, step)
    requires ids <= s.stamps.Keys && FullOf(cfg, s, ids, since)
    ensures Budget(cfg, Apply(cfg, s, step).rows, ids)
            + (if step.Commit? && step.batch in since then cfg.batchSize else 0)
            <= Budget(cfg, s.rows, ids)
    ensures ids <= Apply(cfg, s, step).stamps.Keys
  {
    StepSpendsBudget(cfg, s, step, ids);
    ServesWholeLimit(cfg, s, step, ids, since);
  }

  lemma ServesWholeLimit(cfg: Config, s: State, step: Step, ids: set<EventId>, since: set<BatchId>)
    requires LockInv(cfg, s) && Enabled(cfg, s, step) && FullOf(cfg, s, ids, since)
    ensures step.Commit? && step.batch in since ==> |Served(s, step, ids)| == cfg.batchSize
  {
    if step.Commit? && step.batch in since {
      assert TxHolds(cfg, s.rows, s.open[step.batch]);
      IdsCount(s.open[step.batch].events);
      assert Served(s, step, ids) == Ids(s.open[step.batch].events);
    }
  }

  /** The step of the induction below. */
  lemma PassStep(cfg: Config, s: State, step: Step, ids: set<EventId>, since: set<BatchId>, id: EventId, createdAt: int)
    requires cfg.Accepted() && Inv(cfg, s) && Enabled(cfg, s, step) && Passes(cfg, s, step, id, createdAt)
    requires ids <= s.stamps.Keys && Fenced(s, ids, id, createdAt) && FullOf(cfg, s, ids, since)
    ensures Inv(cfg, Apply(cfg, s, step)) && ids <= Apply(cfg, s, step).stamps.Keys
    ensures Fenced(Apply(cfg, s, step), ids, id, createdAt)
    ensures FullOf(cfg, Apply(cfg, s, step), ids, Since(step, since))
    ensures Budget(cfg, Apply(cfg, s, step).rows, ids)
            + (if step.Commit? && step.batch in since then cfg.batchSize else 0)
            <= Budget(cfg, s.rows, ids)
  {
    PassSpends(cfg, s, step, ids, since);
    StepKeepsFence(cfg, s, step, ids, id, createdAt);
    if step.Claim? {
      PassingClaimIsFull(cfg, s, step.batch, step.ids, ids, id);
    }
    FullOfKept(cfg, s, step, ids, since);
    StepKeepsInv(cfg, s, step);
  }

  lemma OneCommitMore(n: nat, batchSize: nat)
    ensures (n + 1) * batchSize == n * batchSize + batchSize
  {
  }

  lemma {:induction false} PassesSpendBudget(cfg: Config, s: State, steps: seq<Step>, ids: set<EventId>,
                                             since: set<BatchId>, id: EventId, createdAt: int)
    requires cfg.Accepted() && Inv(cfg, s) && Run(cfg, s, steps)
    requires PassedOver(cfg, s, steps, id, createdAt)
    requires ids <= s.stamps.Keys && Fenced(s, ids, id, createdAt) && FullOf(cfg, s, ids, since)
    ensures ClaimedCommits(steps, since) * cfg.batchSize <= Budget(cfg, s.rows, ids)
    decreases |steps|
  {
    hide Apply;
    hide Enabled;
    hide Inv;
    if steps != [] {
      var step := steps[0];
      PassStep(cfg, s, step, ids, since, id, createdAt);
      PassesSpendBudget(cfg, Apply(cfg, s, step), steps[1..], ids, Since(step, since), id, createdAt);
      OneCommitMore(ClaimedCommits(steps[1..], Since(step, since)), cfg.batchSize);
    }
  }

  /** Starvation bound: while a row is eligible and unlocked, the commits of claims that pass
      it over, times the batch size, number at most the attempts left ahead of it. */
  lemma StarvationBound(cfg: Config, s: State, steps: seq<Step>, id: EventId)
    requires Reachable(cfg, s) && Run(cfg, s, steps) && id in s.rows
    requires PassedOver(cfg, s, steps, id, s.rows[id].createdAt)
    ensures ClaimedCommits(steps, {}) * cfg.batchSize <= Budget(cfg, s.rows, Ahead(s, id))
  {
    ReachableInv(cfg, s);
    PassesSpendBudget(cfg, s, steps, Ahead(s, id), {}, id, s.rows[id].createdAt);
  }
}
