/** What the relay does not promise, with the runs that show it. */
module RelayLimits {
  import opened Backoff
  import opened Outbox
  import opened RelaySystem
  import opened RelaySafety
  import opened RelayHistory
  import opened RelayTheorems

  const NOTE: Message := Message("wallet.transactions", "k1", [])

  /** One posted event, no open batch, and `n` records of it, all from aborted batches. */
  ghost predicate Republished(cfg: Config, s: State, n: nat) {
    && s.rows == map[1 := NewRow(NOTE, 0)] && s.open == map[] && s.clock == 0
    && (forall b :: b in s.fates ==> b < n)
    && (forall c :: c in s.calls ==> c.event.id == 1 && c.reply.Acked? && c.reply.offset < n)
    && |s.calls| == n
  }

  lemma {:induction false} AllRecords(cfg: Config, calls: seq<Call>, batches: set<BatchId>)
    requires forall c :: c in calls ==> c.event.id == 1 && c.reply.Acked?
    ensures Records(calls, 1) == |calls| && Tally(cfg, Lost, calls, 1, batches) == 0
  {
    if calls != [] {
      assert calls[|calls| - 1] in calls;
      AllRecords(cfg, calls[..|calls| - 1], batches);
    }
  }

  lemma ClaimTheNote(cfg: Config, s: State, b: BatchId)
    requires cfg.Accepted() && s.rows == map[1 := NewRow(NOTE, 0)] && s.open == map[b := Tx(0, false, [], [])]
    ensures Enabled(cfg, s, Claim(b, [1]))
    ensures Apply(cfg, s, Claim(b, [1])).open == map[b := Tx(0, true, [Event(1, NOTE, 0)], [])]
  {
    assert LockedIds(s) == {};
    NoteIsClaimable(cfg, s.rows);
    hide Claimable;
    assert EventsOf(s.rows, [1]) == [Event(1, NOTE, 0)];
  }

  lemma NoteIsClaimable(cfg: Config, rows: Table)
    requires cfg.Accepted() && rows == map[1 := NewRow(NOTE, 0)]
    ensures Claimable(cfg, rows, {}, 0, [1])
  {
    hide SqlWait;
  }

  /** Begin, claim, publish, abort: one more record, and everything else as before. */
  lemma RepublishOnce(cfg: Config, s: State, n: nat) returns (s': State)
    requires Reachable(cfg, s) && Republished(cfg, s, n)
    ensures Reachable(cfg, s') && Republished(cfg, s', n + 1)
  {
    hide Reachable;
    s' := BeginAndClaim(cfg, s, n);
    s' := TakeStep(cfg, s', Publish(n, Acked(0, n)));
    assert s'.calls == s.calls + [Call(Event(1, NOTE, 0), n, Acked(0, n))];
    s' := TakeStep(cfg, s', Rollback(n));
  }

  lemma {:induction false} RepublishMany(cfg: Config, n: nat) returns (s: State)
    requires cfg.Accepted()
    ensures Reachable(cfg, s) && Republished(cfg, s, n)
  {
    if n == 0 {
      assert Run(cfg, EMPTY, []) && Final(cfg, EMPTY, []) == EMPTY;
      StaysReachable(cfg, EMPTY, Insert(1, NOTE, 0));
      s := Apply(cfg, EMPTY, Insert(1, NOTE, 0));
    } else {
      s := RepublishMany(cfg, n - 1);
      s := RepublishOnce(cfg, s, n - 1);
    }
  }

  /** Row locks do not keep an event from being published again: with no acknowledgement ever
      lost, aborts after the publish leave any number of records of one event. */
  lemma DuplicatesUnbounded(cfg: Config, n: nat)
    requires cfg.Accepted()
    ensures exists s :: Reachable(cfg, s) && Records(s.calls, 1) == n
                        && Tally(cfg, Lost, s.calls, 1, AllBatches(s)) == 0
  {
    var s := RepublishMany(cfg, n);
    AllRecords(cfg, s.calls, AllBatches(s));
  }

  /** A worker whose session is lost does not know it: here its event is claimed, published and
      marked SENT by another batch, and it then publishes the event a second time. */
  lemma LateDuplicateAfterSent(cfg: Config) returns (s: State)
    requires cfg.Accepted()
    ensures Reachable(cfg, s) && PolledSent(s, 1) && Records(s.calls, 1) == 2
    ensures Tally(cfg, Lost, s.calls, 1, AllBatches(s)) == 0
  {
    s := SeverTheWorker(cfg);
    s := DeliverElsewhere(cfg, s);
    s := TakeStep(cfg, s, Publish(0, Acked(0, 1)));
    AllRecords(cfg, s.calls, AllBatches(s));
  }

  lemma SeverTheWorker(cfg: Config) returns (s: State)
    requires cfg.Accepted()
    ensures Reachable(cfg, s) && s.rows == map[1 := NewRow(NOTE, 0)] && s.open == map[] && s.clock == 0
    ensures s.calls == [] && s.fates == map[0 := Aborted] && s.orphans == map[0 := Tx(0, true, [Event(1, NOTE, 0)], [])]
  {
    s := RepublishMany(cfg, 0);
    assert s.orphans == map[] && s.fates == map[] by {
      ReachableInv(cfg, s);
    }
    s := BeginAndClaim(cfg, s, 0);
    s := TakeStep(cfg, s, Sever(0));
  }

  lemma DeliverElsewhere(cfg: Config, s: State) returns (s': State)
    requires Reachable(cfg, s) && s.rows == map[1 := NewRow(NOTE, 0)] && s.open == map[] && s.clock == 0
    requires s.calls == [] && s.fates == map[0 := Aborted]
    ensures Reachable(cfg, s') && PolledSent(s', 1) && s'.open == map[] && s'.orphans == s.orphans
    ensures s'.calls == [Call(Event(1, NOTE, 0), 1, Acked(0, 0))]
  {
    s' := BeginAndClaim(cfg, s, 1);
    PublishTheNote(cfg, s', 1);
    s' := TakeStep(cfg, s', Publish(1, Acked(0, 0)));
    CommitTheNote(cfg, s', 1);
    s' := TakeStep(cfg, s', Commit(1, true));
  }

  lemma PublishTheNote(cfg: Config, s: State, b: BatchId)
    requires s.open == map[b := Tx(0, true, [Event(1, NOTE, 0)], [])] && s.calls == []
    ensures Enabled(cfg, s, Publish(b, Acked(0, 0)))
    ensures var s' := Apply(cfg, s, Publish(b, Acked(0, 0)));
            && s'.open == map[b := Tx(0, true, [Event(1, NOTE, 0)], [Acked(0, 0)])]
            && s' == s.(open := s'.open, metrics := s'.metrics, calls := [Call(Event(1, NOTE, 0), b, Acked(0, 0))])
  {
    assert [] + [Acked(0, 0)] == [Acked(0, 0)];
  }

  lemma TakeStep(cfg: Config, s: State, step: Step) returns (s': State)
    requires Reachable(cfg, s) && Enabled(cfg, s, step)
    ensures s' == Apply(cfg, s, step) && Reachable(cfg, s')
  {
    StaysReachable(cfg, s, step);
    s' := Apply(cfg, s, step);
  }

  lemma BeginAndClaim(cfg: Config, s: State, b: BatchId) returns (s': State)
    requires Reachable(cfg, s) && s.rows == map[1 := NewRow(NOTE, 0)] && s.open == map[] && s.clock == 0
    requires b !in s.fates
    ensures Reachable(cfg, s')
    ensures s' == s.(open := map[b := Tx(0, true, [Event(1, NOTE, 0)], [])], metrics := s'.metrics)
  {
    s' := TakeStep(cfg, s, Begin(b));
    assert s'.open == map[b := Tx(0, false, [], [])];
    ClaimTheNote(cfg, s', b);
    s' := TakeStep(cfg, s', Claim(b, [1]));
  }

  lemma CommitTheNote(cfg: Config, s: State, b: BatchId)
    requires cfg.Accepted() && s.rows == map[1 := NewRow(NOTE, 0)]
    requires s.open == map[b := Tx(0, true, [Event(1, NOTE, 0)], [Acked(0, 0)])]
    ensures Enabled(cfg, s, Commit(b, true))
    ensures var s' := Apply(cfg, s, Commit(b, true));
            PolledSent(s', 1) && s'.open == map[] && s'.orphans == s.orphans && s'.calls == s.calls
  {
    var tx := s.open[b];
    CommitOutcome(s.rows, tx.events, tx.replies, tx.now, cfg.maxAttempts);
    assert CommittedRows(cfg, s, b)[tx.events[0].id] == AfterSent(NewRow(NOTE, 0), SentRef(1, 0, 0), 0);
  }

  /** Oldest first holds only among the rows a claim sees: a posting transaction that began earlier
      can still write an older event after a newer one was claimed. */
  lemma OlderEventAfterClaim(cfg: Config) returns (s: State)
    requires cfg.Accepted()
    ensures Reachable(cfg, s) && 1 in s.rows && 2 in s.rows && s.rows[1].createdAt < s.rows[2].createdAt
    ensures 2 in LockedIds(s) && 1 !in LockedIds(s)
  {
    assert Run(cfg, EMPTY, []) && Final(cfg, EMPTY, []) == EMPTY;
    s := TakeStep(cfg, EMPTY, Tick(5));
    s := TakeStep(cfg, s, Insert(2, NOTE, 5));
    s := TakeStep(cfg, s, Begin(0));
    assert s.rows == map[2 := NewRow(NOTE, 5)] && s.open == map[0 := Tx(5, false, [], [])];
    NewerIsClaimable(cfg, s);
    s := TakeStep(cfg, s, Claim(0, [2]));
    assert s.open[0].events == [Event(2, NOTE, 0)];
    s := TakeStep(cfg, s, Insert(1, NOTE, 0));
  }

  lemma NewerIsClaimable(cfg: Config, s: State)
    requires cfg.Accepted() && s.rows == map[2 := NewRow(NOTE, 5)] && s.open == map[0 := Tx(5, false, [], [])]
    ensures Enabled(cfg, s, Claim(0, [2]))
    ensures Apply(cfg, s, Claim(0, [2])).open[0].events == [Event(2, NOTE, 0)]
  {
    hide SqlWait;
    assert LockedIds(s) == {};
    assert EventsOf(s.rows, [2]) == [Event(2, NOTE, 0)];
  }

  /** The wait runs from the claim, not from the failure: a row whose failure is committed at
      `s.clock` is eligible to a transaction that begins at time `t` exactly when the wait since
      its batch's frozen `now` is over. A batch that stayed open longer leaves no wait at all. */
  lemma WaitRunsFromClaim(cfg: Config, s: State, step: Step, id: EventId, t: int)
    requires LockInv(cfg, s) && step.Commit? && Enabled(cfg, s, step)
    requires id in Ids(s.open[step.batch].events) && id in s.open[step.batch].Failures()
    requires id in s.rows && s.rows[id].attempts + 1 < cfg.maxAttempts
    ensures id in Apply(cfg, s, step).rows
    ensures Eligible(cfg, Apply(cfg, s, step).rows[id], t)
            <==> t >= s.open[step.batch].now + SqlWait(cfg.backoff, s.rows[id].attempts + 1)
    ensures s.clock - s.open[step.batch].now >= SqlWait(cfg.backoff, s.rows[id].attempts + 1) ==>
              Eligible(cfg, Apply(cfg, s, step).rows[id], s.clock)
  {
    var i := CommitRow(cfg, s, step, id);
  }

  /** So a batch that publishes for as long as the wait leaves none: here the row is claimable
      again at the instant its first failure is committed. */
  lemma NoWaitLeft(cfg: Config) returns (before: State, s: State)
    requires cfg.Accepted() && cfg.maxAttempts >= 2
    ensures Reachable(cfg, before) && Enabled(cfg, before, Commit(0, true)) && s == Apply(cfg, before, Commit(0, true))
    ensures 1 in s.rows && s.rows[1].status.Failed? && s.rows[1].attempts == 1
    ensures Candidate(cfg, s.rows, LockedIds(s), s.clock, 1)
  {
    before := RepublishMany(cfg, 0);
    before := BeginAndClaim(cfg, before, 0);
    before := TakeStep(cfg, before, Tick(SqlWait(cfg.backoff, 1)));
    before := TakeStep(cfg, before, Publish(0, NotStored));
    assert before.open == map[0 := Tx(0, true, [Event(1, NOTE, 0)], [NotStored])] by {
      assert [] + [NotStored] == [NotStored];
    }
    s := FailTheNote(cfg, before);
  }

  lemma FailTheNote(cfg: Config, s: State) returns (t: State)
    requires Reachable(cfg, s) && cfg.maxAttempts >= 2 && s.rows == map[1 := NewRow(NOTE, 0)]
    requires s.open == map[0 := Tx(0, true, [Event(1, NOTE, 0)], [NotStored])] && s.clock == SqlWait(cfg.backoff, 1)
    ensures Enabled(cfg, s, Commit(0, true)) && t == Apply(cfg, s, Commit(0, true))
    ensures 1 in t.rows && t.rows[1].status.Failed? && t.rows[1].attempts == 1
    ensures Candidate(cfg, t.rows, LockedIds(t), t.clock, 1)
  {
    ReachableInv(cfg, s);
    var tx := s.open[0];
    OutcomeFitsExactly(s.rows, tx.events, tx.replies, tx.now, cfg.maxAttempts);
    t := Apply(cfg, s, Commit(0, true));
    assert tx.events[0].id == 1;
    CommitOutcome(s.rows, tx.events, tx.replies, tx.now, cfg.maxAttempts);
    assert t.open == map[];
    assert LockedIds(t) == {};
  }
}
