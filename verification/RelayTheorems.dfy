/** Whole-run theorems of the polling relay: they hold after every run from the empty system,
    whatever the interleaving of workers, broker answers, aborts, CDC marks and purges. */
module RelayTheorems {
  import opened Wrappers
  import opened Backoff
  import opened Outbox
  import opened RelaySystem
  import opened RelaySafety
  import opened RelayHistory

  ghost predicate Inv(cfg: Config, s: State) {
    && LockInv(cfg, s)
    && StatusInv(cfg, s)
    && CallsInv(cfg, s)
    && MarksInv(cfg, s)
    && RecordInv(s)
    && PositionsInv(s.calls)
    && StampsInv(cfg, s)
    && MetricsInv(cfg, s)
    && FetchInv(s)
  }

  lemma StepKeepsInv(cfg: Config, s: State, step: Step)
    requires cfg.Accepted() && Inv(cfg, s) && Enabled(cfg, s, step)
    ensures Inv(cfg, Apply(cfg, s, step))
  {
    LockInvKept(cfg, s, step);
    StatusInvKept(cfg, s, step);
    CallsInvKept(cfg, s, step);
    MarksInvKept(cfg, s, step);
    RecordInvKept(cfg, s, step);
    PositionsInvKept(cfg, s, step);
    StampsInvKept(cfg, s, step);
    MetricsInvKept(cfg, s, step);
    FetchInvKept(cfg, s, step);
  }

  lemma {:induction false} RunKeepsInv(cfg: Config, s: State, steps: seq<Step>)
    requires cfg.Accepted() && Inv(cfg, s) && Run(cfg, s, steps)
    ensures Inv(cfg, Final(cfg, s, steps))
    decreases |steps|
  {
    if steps != [] {
      StepKeepsInv(cfg, s, steps[0]);
      RunKeepsInv(cfg, Apply(cfg, s, steps[0]), steps[1..]);
    }
  }

  lemma EmptyInv(cfg: Config)
    ensures Inv(cfg, EMPTY)
  {
    assert Batches(EMPTY, Committed) == {};
  }

  ghost predicate Reachable(cfg: Config, s: State) {
    cfg.Accepted() && exists steps :: Run(cfg, EMPTY, steps) && s == Final(cfg, EMPTY, steps)
  }

  lemma ReachableInv(cfg: Config, s: State)
    requires Reachable(cfg, s)
    ensures Inv(cfg, s)
  {
    var steps :| Run(cfg, EMPTY, steps) && s == Final(cfg, EMPTY, steps);
    EmptyInv(cfg);
    RunKeepsInv(cfg, EMPTY, steps);
  }

  lemma {:induction false} RunAppend(cfg: Config, s: State, steps: seq<Step>, step: Step)
    requires Run(cfg, s, steps) && Enabled(cfg, Final(cfg, s, steps), step)
    ensures Run(cfg, s, steps + [step])
    ensures Final(cfg, s, steps + [step]) == Apply(cfg, Final(cfg, s, steps), step)
    decreases |steps|
  {
    if steps == [] {
      assert [step][1..] == [];
    } else {
      RunAppend(cfg, Apply(cfg, s, steps[0]), steps[1..], step);
      assert (steps + [step])[1..] == steps[1..] + [step];
    }
  }

  lemma StaysReachable(cfg: Config, s: State, step: Step)
    requires Reachable(cfg, s) && Enabled(cfg, s, step)
    ensures Reachable(cfg, Apply(cfg, s, step))
  {
    var steps :| Run(cfg, EMPTY, steps) && s == Final(cfg, EMPTY, steps);
    RunAppend(cfg, EMPTY, steps, step);
  }

  // ----- Where every record of an event comes from -----------------------------------------

  lemma {:induction false} RecordsAreDeliveredOrLost(cfg: Config, calls: seq<Call>, id: EventId, batches: set<BatchId>)
    requires forall c :: c in calls ==> c.batch in batches
    ensures Records(calls, id) == Tally(cfg, Delivery, calls, id, batches) + Tally(cfg, Lost, calls, id, batches)
  {
    if calls != [] {
      assert calls[|calls| - 1] in calls;
      RecordsAreDeliveredOrLost(cfg, calls[..|calls| - 1], id, batches);
    }
  }

  /** Conservation: an event's records are the one behind its polled SENT mark, those of
      aborted batches, those whose acknowledgement was lost, and those of open batches. */
  lemma RecordsConserved(cfg: Config, s: State, id: EventId)
    requires Reachable(cfg, s)
    ensures Records(s.calls, id)
            == (if PolledSent(s, id) then 1 else 0)
               + Tally(cfg, Delivery, s.calls, id, Batches(s, Aborted))
               + Tally(cfg, Lost, s.calls, id, AllBatches(s))
               + Tally(cfg, Delivery, s.calls, id, s.open.Keys)
  {
    ReachableInv(cfg, s);
    RecordsAreDeliveredOrLost(cfg, s.calls, id, AllBatches(s));
    SplitByFate(cfg, Delivery, s, id);
  }

  lemma SplitByFate(cfg: Config, kind: Kind, s: State, id: EventId)
    requires LockInv(cfg, s)
    ensures Tally(cfg, kind, s.calls, id, AllBatches(s))
            == Tally(cfg, kind, s.calls, id, Batches(s, Committed))
               + Tally(cfg, kind, s.calls, id, Batches(s, Aborted))
               + Tally(cfg, kind, s.calls, id, s.open.Keys)
  {
    TallySplit(cfg, kind, s.calls, id, s.open.Keys, s.fates.Keys);
    TallySplit(cfg, kind, s.calls, id, Batches(s, Committed), Batches(s, Aborted));
    assert s.fates.Keys == Batches(s, Committed) + Batches(s, Aborted);
  }

  /** At most one open batch has published an event, and only while the event is live. */
  lemma OpenDeliveries(cfg: Config, s: State, id: EventId)
    requires LockInv(cfg, s) && CallsInv(cfg, s)
    ensures Tally(cfg, Delivery, s.calls, id, s.open.Keys) <= if id in s.rows && s.rows[id].Live() then 1 else 0
  {
    if b :| b in s.open && id in Ids(s.open[b].events) {
      var tx := s.open[b];
      var i :| 0 <= i < |tx.events| && tx.events[i].id == id;
      assert Held(cfg, s.rows, tx.now, tx.events[i]);
      TallySplit(cfg, Delivery, s.calls, id, {b}, s.open.Keys - {b});
      assert s.open.Keys == {b} + (s.open.Keys - {b});
      if i < |tx.replies| {
        TxTallyAt(cfg, Delivery, tx.events, tx.replies, i);
      } else {
        TxTallyForeign(cfg, Delivery, tx.events, tx.replies, id);
      }
      OtherBatchesDeliverNothing(cfg, s, id, s.open.Keys - {b});
    } else {
      OtherBatchesDeliverNothing(cfg, s, id, s.open.Keys);
    }
  }

  lemma {:induction false} OtherBatchesDeliverNothing(cfg: Config, s: State, id: EventId, batches: set<BatchId>)
    requires LockInv(cfg, s) && CallsInv(cfg, s) && batches <= s.open.Keys
    requires forall b :: b in batches ==> id !in Ids(s.open[b].events)
    ensures Tally(cfg, Delivery, s.calls, id, batches) == 0
    decreases |batches|
  {
    if batches == {} {
      TallyForeign(cfg, Delivery, s.calls, id, batches);
    } else {
      var b :| b in batches;
      assert TxHolds(cfg, s.rows, s.open[b]);
      TxTallyForeign(cfg, Delivery, s.open[b].events, s.open[b].replies, id);
      OtherBatchesDeliverNothing(cfg, s, id, batches - {b});
      TallySplit(cfg, Delivery, s.calls, id, {b}, batches - {b});
      assert batches == {b} + (batches - {b});
    }
  }

  /** Duplicates need an aborted batch that had published the event or a lost acknowledgement
      of it: the excess over one record is bounded by those two counts. */
  lemma DuplicateBound(cfg: Config, s: State, id: EventId)
    requires Reachable(cfg, s)
    ensures Records(s.calls, id)
            <= 1 + Tally(cfg, Delivery, s.calls, id, Batches(s, Aborted)) + Tally(cfg, Lost, s.calls, id, AllBatches(s))
    ensures PolledSent(s, id) ==> Records(s.calls, id) >= 1
  {
    ReachableInv(cfg, s);
    RecordsConserved(cfg, s, id);
    OpenDeliveries(cfg, s, id);
  }

  /** A polled SENT row, purged or not, has a record of its own message at its stamped
      position, and it is the only record there. */
  lemma SentHasItsRecord(cfg: Config, s: State, id: EventId)
    requires Reachable(cfg, s) && PolledSent(s, id)
    ensures var r := if id in s.rows then s.rows[id] else s.purged[id];
            r.partition.Some? && r.offset.Some?
            && (exists c :: c in s.calls && c.event.id == id && c.event.msg == r.msg
                            && c.reply == Acked(r.partition.value, r.offset.value))
            && (forall c :: c in s.calls && c.Stored() && c.event.msg.topic == r.msg.topic
                            && c.reply.partition == r.partition.value && c.reply.offset == r.offset.value
                            ==> c.event.id == id && c.event.msg == r.msg)
  {
    ReachableInv(cfg, s);
    var r := if id in s.rows then s.rows[id] else s.purged[id];
    DeliveredExactly(s.calls, id, r);
  }

  lemma DeliveredExactly(calls: seq<Call>, id: EventId, r: Row)
    requires DeliveredAt(calls, id, r) && PositionsInv(calls)
    ensures r.partition.Some? && r.offset.Some?
    ensures exists c :: c in calls && c.event.id == id && c.event.msg == r.msg
                        && c.reply == Acked(r.partition.value, r.offset.value)
    ensures forall c :: c in calls && c.Stored() && c.event.msg.topic == r.msg.topic
                        && c.reply.partition == r.partition.value && c.reply.offset == r.offset.value
                        ==> c.event.id == id && c.event.msg == r.msg
  {
    var d :| d in calls && d.event.id == id && d.event.msg == r.msg
             && d.reply.Acked? && r.partition == Some(d.reply.partition) && r.offset == Some(d.reply.offset);
    assert d.reply == Acked(r.partition.value, r.offset.value);
    forall c | c in calls && c.Stored() && c.event.msg.topic == r.msg.topic
               && c.reply.partition == r.partition.value && c.reply.offset == r.offset.value
      ensures c == d
    {
      OneRecordPerPosition(calls, c, d);
    }
  }

  /** At-least-once: no posted event is dropped. It is still live, or DEAD with its whole
      budget of failures spent, or marked by the CDC relay, or SENT with a record in the log. */
  lemma EveryEventAccountedFor(cfg: Config, s: State, id: EventId)
    requires Reachable(cfg, s) && id in s.stamps
    ensures || (id in s.rows && s.rows[id].Live())
            || (id in s.rows && s.rows[id].status.Dead? && |s.stamps[id]| == cfg.maxAttempts)
            || (id in s.rows && s.rows[id].status.Sent? && s.rows[id].settledBy == Some(CdcUpdater))
            || (id in s.purged && s.purged[id].status.Sent? && s.purged[id].settledBy == Some(CdcUpdater))
            || (PolledSent(s, id) && Records(s.calls, id) >= 1)
  {
    ReachableInv(cfg, s);
    DuplicateBound(cfg, s, id);
    if id in s.rows {
      assert RowOk(cfg, s.rows[id]) && StampsOk(cfg, s.rows[id], s.stamps[id]);
      TwoMarkers(s.rows[id]);
    } else {
      assert RowOk(cfg, s.purged[id]);
      TwoMarkers(s.purged[id]);
    }
  }

  lemma TwoMarkers(r: Row)
    ensures r.settledBy.Some? ==> r.settledBy == Some(Poller) || r.settledBy == Some(CdcUpdater)
  {
    if r.settledBy.Some? {
      match r.settledBy.value
      case Poller =>
      case CdcUpdater =>
    }
  }

  // ----- Retry budget and backoff ----------------------------------------------------------

  /** Attempts are determined by the status up to the retry budget, in every reachable state. */
  lemma StatusFollowsAttempts(cfg: Config, s: State, id: EventId)
    requires Reachable(cfg, s) && id in s.rows
    ensures var r := s.rows[id];
            && (r.status.Pending? <==> r.attempts == 0)
            && (r.status.Failed? ==> 1 <= r.attempts < cfg.maxAttempts)
            && (r.status.Dead? ==> r.attempts == cfg.maxAttempts)
            && (r.status.Sent? ==> 1 <= r.attempts <= cfg.maxAttempts)
            && (r.status.Failed? || r.status.Dead? ==> id in s.stamps && |s.stamps[id]| == r.attempts)
  {
    ReachableInv(cfg, s);
    assert RowOk(cfg, s.rows[id]) && StampsOk(cfg, s.rows[id], s.stamps[id]);
  }

  /** Backoff over whole runs: the latest failure is stamped at least the sum of the scheduled
      waits after the first, under any interleaving of transactions with frozen clocks. */
  lemma BackoffWindow(cfg: Config, s: State, id: EventId)
    requires Reachable(cfg, s) && id in s.rows
    requires s.rows[id].status.Failed? || s.rows[id].status.Dead?
    ensures s.rows[id].attempts >= 1 && s.rows[id].lastAttemptAt.Some? && id in s.stamps && s.stamps[id] != []
    ensures s.rows[id].lastAttemptAt.value >= s.stamps[id][0] + TotalWait(cfg.backoff, s.rows[id].attempts - 1)
  {
    ReachableInv(cfg, s);
    assert RowOk(cfg, s.rows[id]) && StampsOk(cfg, s.rows[id], s.stamps[id]);
    SpacedTotal(cfg.backoff, s.stamps[id], s.rows[id].attempts - 1);
  }

  /** With the documented defaults a DEAD row lived at least 1215 s after its first failure. */
  lemma DefaultsOutlastOutage(s: State, id: EventId)
    requires var cfg := Config(100, 10, RetryBackoff(5_000_000_000, 300_000_000_000));
             Reachable(cfg, s) && id in s.rows && s.rows[id].status.Dead?
    ensures s.rows[id].lastAttemptAt.Some? && id in s.stamps && s.stamps[id] != []
    ensures s.rows[id].lastAttemptAt.value >= s.stamps[id][0] + 1215_000_000_000
  {
    var cfg := Config(100, 10, RetryBackoff(5_000_000_000, 300_000_000_000));
    StatusFollowsAttempts(cfg, s, id);
    BackoffWindow(cfg, s, id);
    DefaultWindow();
  }

  // ----- No event is lost to the counters ---------------------------------------------------

  /** `events_fetched` is processed + failed, plus what open batches and workers with a lost
      session have not published yet and what crashes left unpublished. */
  lemma FetchedAccountedFor(cfg: Config, s: State)
    requires Reachable(cfg, s)
    ensures s.metrics.fetched
            == s.metrics.processed + s.metrics.failed + s.abandoned + Unanswered(s.open) + Unanswered(s.orphans)
    ensures s.metrics.published == s.metrics.processed
  {
    ReachableInv(cfg, s);
  }

  // ----- No silent DEAD transition ---------------------------------------------------------

  function DeadIds(s: State): set<EventId> {
    set id | id in s.rows && s.rows[id].status.Dead?
  }

  function Tallied(cfg: Config, kind: Kind, calls: seq<Call>, batches: set<BatchId>): set<EventId> {
    set c | c in calls && c.batch in batches && Is(cfg, kind, c.event, c.reply) :: c.event.id
  }

  lemma {:induction false} TallyPositive(cfg: Config, kind: Kind, calls: seq<Call>, id: EventId, batches: set<BatchId>)
    ensures id in Tallied(cfg, kind, calls, batches) <==> Tally(cfg, kind, calls, id, batches) >= 1
  {
    if calls != [] {
      var front, c := calls[..|calls| - 1], calls[|calls| - 1];
      TallyPositive(cfg, kind, front, id, batches);
      assert calls == front + [c];
    }
  }

  lemma {:induction false} TotalIsCount(cfg: Config, kind: Kind, calls: seq<Call>, batches: set<BatchId>)
    requires forall id :: Tally(cfg, kind, calls, id, batches) <= 1
    ensures Total(cfg, kind, calls, batches) == |Tallied(cfg, kind, calls, batches)|
  {
    if calls != [] {
      var front, c := calls[..|calls| - 1], calls[|calls| - 1];
      assert calls == front + [c];
      forall id ensures Tally(cfg, kind, front, id, batches) <= 1 {
        assert Tally(cfg, kind, calls, id, batches) <= 1;
      }
      TotalIsCount(cfg, kind, front, batches);
      if c.batch in batches && Is(cfg, kind, c.event, c.reply) {
        assert Tally(cfg, kind, calls, c.event.id, batches) <= 1;
        TallyPositive(cfg, kind, front, c.event.id, batches);
        assert Tallied(cfg, kind, calls, batches) == Tallied(cfg, kind, front, batches) + {c.event.id};
      } else {
        assert Tallied(cfg, kind, calls, batches) == Tallied(cfg, kind, front, batches);
      }
    }
  }

  lemma {:induction false} TotalSplit(cfg: Config, kind: Kind, calls: seq<Call>, a: set<BatchId>, b: set<BatchId>)
    requires a !! b
    ensures Total(cfg, kind, calls, a + b) == Total(cfg, kind, calls, a) + Total(cfg, kind, calls, b)
  {
    if calls != [] {
      TotalSplit(cfg, kind, calls[..|calls| - 1], a, b);
    }
  }

  /** `events_dead` counts every DEAD row, plus the exhausted failures of batches that
      aborted or have not ended. */
  lemma DeadIsNeverSilent(cfg: Config, s: State)
    requires Reachable(cfg, s)
    ensures s.metrics.dead
            == |DeadIds(s)|
               + Total(cfg, Exhausted, s.calls, Batches(s, Aborted))
               + Total(cfg, Exhausted, s.calls, s.open.Keys)
  {
    ReachableInv(cfg, s);
    var committed, aborted := Batches(s, Committed), Batches(s, Aborted);
    TotalSplit(cfg, Exhausted, s.calls, s.open.Keys, s.fates.Keys);
    TotalSplit(cfg, Exhausted, s.calls, committed, aborted);
    assert s.fates.Keys == committed + aborted;
    TotalIsCount(cfg, Exhausted, s.calls, committed);
    forall id ensures id in Tallied(cfg, Exhausted, s.calls, committed) <==> id in DeadIds(s) {
      TallyPositive(cfg, Exhausted, s.calls, id, committed);
    }
    assert Tallied(cfg, Exhausted, s.calls, committed) == DeadIds(s);
  }
}
