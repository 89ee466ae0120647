/** When the retry budget exceeds the SMALLINT attempts column: a row that has used the column up
    stays live for good, and delivery is always possible exactly when the budget fits. */
module RelayExhaustion {
  import opened Outbox
  import opened RelaySystem
  import opened RelaySafety
  import opened RelayTheorems
  import opened RelayDelivery
  import RelayLimits

  /** Live, with no room for another attempt. */
  predicate Full(s: State, id: EventId) {
    id in s.rows && s.rows[id].Live() && s.rows[id].attempts >= SMALLINT_MAX
  }

  /** No batch that claimed such a row can commit, and no mark or purge takes it. */
  lemma FullRowStays(cfg: Config, s: State, step: Step, id: EventId)
    requires Inv(cfg, s) && Enabled(cfg, s, step) && Full(s, id)
    ensures Full(Apply(cfg, s, step), id)
  {
    if step.Commit? {
      CommitSparesFull(cfg, s, step.batch, step.reported, id);
      var _ := CommitRow(cfg, s, step, id);
    }
  }

  lemma CommitSparesFull(cfg: Config, s: State, b: BatchId, reported: bool, id: EventId)
    requires Inv(cfg, s) && Enabled(cfg, s, Commit(b, reported)) && Full(s, id)
    ensures id !in Ids(s.open[b].events)
  {
    var tx := s.open[b];
    CommitPossibleExactly(cfg, s, b, reported);
    assert TxHolds(cfg, s.rows, tx);
    forall i | 0 <= i < |tx.events| ensures tx.events[i].id != id {
      assert Held(cfg, s.rows, tx.now, tx.events[i]);
    }
  }

  /** Such a row is live after every run, so it is never delivered, parked or purged. */
  lemma {:induction false} FullForGood(cfg: Config, s: State, steps: seq<Step>, id: EventId)
    requires cfg.Accepted() && Inv(cfg, s) && Run(cfg, s, steps) && Full(s, id)
    ensures Full(Final(cfg, s, steps), id) && !PolledSent(Final(cfg, s, steps), id)
    decreases |steps|
  {
    hide Inv;
    hide Apply;
    hide Enabled;
    if steps == [] {
      FullIsNotSent(cfg, s, id);
    } else {
      FullRowStays(cfg, s, steps[0], id);
      StepKeepsInv(cfg, s, steps[0]);
      FullForGood(cfg, Apply(cfg, s, steps[0]), steps[1..], id);
    }
  }

  lemma FullIsNotSent(cfg: Config, s: State, id: EventId)
    requires Inv(cfg, s) && Full(s, id)
    ensures !PolledSent(s, id)
  {
  }

  // ----- Such a row is reachable -----------------------------------------------------------

  /** One posted event that has failed `k` times. */
  ghost predicate FailedTimes(cfg: Config, s: State, k: nat) {
    OnTheWay(cfg, EMPTY, s) && s.rows.Keys == {1} && s.rows[1].Live() && s.rows[1].attempts == k
  }

  lemma OnlyClaim(cfg: Config, s: State, ids: seq<EventId>)
    requires cfg.Accepted() && s.rows.Keys == {1} && 1 in Waiting(cfg, s)
    requires Claimable(cfg, s.rows, LockedIds(s), s.clock, ids)
    ensures ids == [1]
  {
    assert Candidate(cfg, s.rows, LockedIds(s), s.clock, 1);
    if |ids| > 1 {
      TwoDiffer(ids);
    }
    forall i | 0 <= i < |ids| ensures ids[i] == 1 {
      assert Candidate(cfg, s.rows, LockedIds(s), s.clock, ids[i]);
    }
  }

  lemma TwoDiffer(ids: seq<EventId>)
    requires |ids| >= 2 && forall i, j :: 0 <= i < j < |ids| ==> ids[i] != ids[j]
    ensures exists i :: 0 <= i < |ids| && ids[i] != 1
  {
    if ids[0] == 1 {
      assert ids[1] != 1;
    }
  }

  /** The broker fails the one claimed event, and the batch records it. */
  lemma FailClaimed(cfg: Config, s: State, b: BatchId) returns (t: State)
    requires OnTheWay(cfg, EMPTY, s) && s.rows.Keys == {1} && s.rows[1].Live()
    requires s.rows[1].attempts < SMALLINT_MAX && s.rows[1].attempts + 1 < cfg.maxAttempts
    requires b in s.open && |s.open[b].events| == 1 && s.open[b].events[0].id == 1 && s.open[b].replies == []
    ensures FailedTimes(cfg, t, s.rows[1].attempts + 1)
  {
    hide Inv;
    t := Go(cfg, EMPTY, s, Publish(b, NotStored));
    assert t.open[b].replies == [NotStored];
    FailCommit(cfg, t, b);
    hide Apply;
    hide Enabled;
    t := Go(cfg, EMPTY, t, Commit(b, true));
  }

  lemma FailCommit(cfg: Config, s: State, b: BatchId)
    requires Inv(cfg, s) && s.rows.Keys == {1} && s.rows[1].Live()
    requires s.rows[1].attempts < SMALLINT_MAX && s.rows[1].attempts + 1 < cfg.maxAttempts
    requires b in s.open && |s.open[b].events| == 1 && s.open[b].events[0].id == 1 && s.open[b].replies == [NotStored]
    ensures Enabled(cfg, s, Commit(b, true))
    ensures var rows := Apply(cfg, s, Commit(b, true)).rows;
            rows.Keys == {1} && rows[1].Live() && rows[1].attempts == s.rows[1].attempts + 1
  {
    assert TxHolds(cfg, s.rows, s.open[b]);
    assert Held(cfg, s.rows, s.open[b].now, s.open[b].events[0]);
    CommitPossibleExactly(cfg, s, b, true);
    var i := CommitRow(cfg, s, Commit(b, true), 1);
  }

  lemma FailAgain(cfg: Config, s: State, k: nat) returns (t: State)
    requires FailedTimes(cfg, s, k) && k < SMALLINT_MAX && k + 1 < cfg.maxAttempts
    ensures FailedTimes(cfg, t, k + 1)
  {
    hide Inv;
    t := ReleaseAll(cfg, EMPTY, s);
    t := WaitOut(cfg, EMPTY, t, 1);
    var u, b, ids := ClaimMore(cfg, EMPTY, t);
    OnlyClaim(cfg, t, ids);
    t := FailClaimed(cfg, u, b);
  }

  lemma {:induction false} FailMany(cfg: Config, k: nat) returns (s: State)
    requires cfg.Accepted() && k <= SMALLINT_MAX && k < cfg.maxAttempts
    ensures FailedTimes(cfg, s, k)
    decreases k
  {
    if k == 0 {
      EmptyInv(cfg);
      assert Run(cfg, EMPTY, []) && Final(cfg, EMPTY, []) == EMPTY;
      s := Go(cfg, EMPTY, EMPTY, Insert(1, RelayLimits.NOTE, 0));
    } else {
      s := FailMany(cfg, k - 1);
      s := FailAgain(cfg, s, k - 1);
    }
  }

  /** With a budget above 32767, which the loader accepts, a row can get stuck: live, eligible
      again and again, and never delivered whatever happens. */
  lemma LargeBudgetStrands(cfg: Config) returns (s: State)
    requires cfg.Accepted() && cfg.maxAttempts > 32767
    ensures Reachable(cfg, s) && 1 in s.rows && s.rows[1].Live()
    ensures forall t :: Leads(cfg, s, t) ==> !PolledSent(t, 1)
  {
    s := FailMany(cfg, SMALLINT_MAX);
    forall t | Leads(cfg, s, t) ensures !PolledSent(t, 1) {
      var steps :| Run(cfg, s, steps) && t == Final(cfg, s, steps);
      FullForGood(cfg, s, steps, 1);
    }
  }

  /** Every live row of every reachable state can be delivered. */
  ghost predicate AlwaysDeliverable(cfg: Config) {
    forall s, id :: Reachable(cfg, s) && id in s.rows && s.rows[id].Live() ==>
      exists t :: Leads(cfg, s, t) && PolledSent(t, id)
  }

  /** Delivery stays possible exactly when the retry budget fits the attempts column. */
  lemma AlwaysDeliverableExactly(cfg: Config)
    requires cfg.Accepted()
    ensures AlwaysDeliverable(cfg) <==> cfg.maxAttempts <= 32767
  {
    if cfg.maxAttempts <= SMALLINT_MAX {
      forall s, id | Reachable(cfg, s) && id in s.rows && s.rows[id].Live()
        ensures exists t :: Leads(cfg, s, t) && PolledSent(t, id)
      {
        var t := LiveRowsCanBeDelivered(cfg, s, id);
      }
    } else {
      var s := LargeBudgetStrands(cfg);
      assert AlwaysDeliverable(cfg) ==> exists t :: Leads(cfg, s, t) && PolledSent(t, 1);
    }
  }
}
