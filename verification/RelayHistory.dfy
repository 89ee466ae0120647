/** Invariants of the relay that tie the table to its history: where records landed, when
    failures were stamped, and what the counters counted. */
module RelayHistory {
  import opened Wrappers
  import opened Backoff
  import opened Outbox
  import opened RelaySystem
  import opened RelaySafety

  // ----- Records at their stamped positions ------------------------------------------------

  /** The log holds a record at the row's stamped partition and offset, with the row's message. */
  ghost predicate DeliveredAt(calls: seq<Call>, id: EventId, r: Row) {
    exists c :: c in calls && c.event.id == id && c.event.msg == r.msg
                && c.reply.Acked? && r.partition == Some(c.reply.partition) && r.offset == Some(c.reply.offset)
  }

  ghost predicate RecordInv(s: State) {
    && (forall b, i :: b in s.open && s.open[b].WellFormed() && 0 <= i < |s.open[b].replies| ==>
          Call(s.open[b].events[i], b, s.open[b].replies[i]) in s.calls)
    && (forall id :: id in s.rows && s.rows[id].status.Sent? && s.rows[id].settledBy == Some(Poller) ==>
          DeliveredAt(s.calls, id, s.rows[id]))
    && (forall id :: id in s.purged && s.purged[id].settledBy == Some(Poller) ==>
          DeliveredAt(s.calls, id, s.purged[id]))
  }

  /** No two records share a topic, partition and offset. */
  ghost predicate PositionsInv(calls: seq<Call>) {
    forall i, j :: 0 <= i < j < |calls| && calls[i].Stored() && calls[j].Stored()
      && calls[i].event.msg.topic == calls[j].event.msg.topic
      && calls[i].reply.partition == calls[j].reply.partition
      ==> calls[i].reply.offset < calls[j].reply.offset
  }

  lemma RecordInvKept(cfg: Config, s: State, step: Step)
    requires LockInv(cfg, s) && StatusInv(cfg, s) && RecordInv(s) && Enabled(cfg, s, step)
    ensures RecordInv(Apply(cfg, s, step))
  {
    if step.Commit? {
      var s' := Apply(cfg, s, step);
      forall id | id in s'.rows && s'.rows[id].status.Sent? && s'.rows[id].settledBy == Some(Poller)
        ensures DeliveredAt(s'.calls, id, s'.rows[id])
      {
        CommitDelivers(cfg, s, step, id);
      }
    } else if step.Publish? {
      PublishKeepsRecords(cfg, s, step);
    } else {
      OtherStepsKeepRecords(cfg, s, step);
    }
  }

  lemma PublishKeepsRecords(cfg: Config, s: State, step: Step)
    requires LockInv(cfg, s) && RecordInv(s) && step.Publish? && Enabled(cfg, s, step)
    ensures RecordInv(Apply(cfg, s, step))
  {
    var tx := TxOf(s, step.batch);
    var call := Call(tx.events[|tx.replies|], step.batch, step.reply);
    forall id, r | DeliveredAt(s.calls, id, r) ensures DeliveredAt(s.calls + [call], id, r) {
      DeliveredGrows(s.calls, call, id, r);
    }
    forall c | c in s.calls || c == call ensures c in s.calls + [call] {
    }
  }

  lemma DeliveredGrows(calls: seq<Call>, call: Call, id: EventId, r: Row)
    requires DeliveredAt(calls, id, r)
    ensures DeliveredAt(calls + [call], id, r)
  {
    var c :| c in calls && c.event.id == id && c.event.msg == r.msg
             && c.reply.Acked? && r.partition == Some(c.reply.partition) && r.offset == Some(c.reply.offset);
    assert c in calls + [call];
  }

  lemma OtherStepsKeepRecords(cfg: Config, s: State, step: Step)
    requires LockInv(cfg, s) && StatusInv(cfg, s) && RecordInv(s) && Enabled(cfg, s, step)
    requires !step.Commit? && !step.Publish?
    ensures RecordInv(Apply(cfg, s, step))
  {
  }

  lemma CommitDelivers(cfg: Config, s: State, step: Step, id: EventId)
    requires LockInv(cfg, s) && RecordInv(s) && step.Commit? && Enabled(cfg, s, step)
    requires id in s.rows
    ensures var r := Apply(cfg, s, step).rows[id];
            r.status.Sent? && r.settledBy == Some(Poller) ==> DeliveredAt(s.calls, id, r)
  {
    var tx := s.open[step.batch];
    var i := CommitRow(cfg, s, step, id);
    if id in Ids(tx.events) {
      assert Call(tx.events[i], step.batch, tx.replies[i]) in s.calls;
    }
  }

  /** At most one record sits at a position. */
  lemma OneRecordPerPosition(calls: seq<Call>, c: Call, d: Call)
    requires PositionsInv(calls) && c in calls && d in calls && c.Stored() && d.Stored()
    requires c.event.msg.topic == d.event.msg.topic
    requires c.reply.partition == d.reply.partition && c.reply.offset == d.reply.offset
    ensures c == d
  {
    var i :| 0 <= i < |calls| && calls[i] == c;
    var j :| 0 <= j < |calls| && calls[j] == d;
    assert !(i < j) && !(j < i);
  }

  lemma PositionsInvKept(cfg: Config, s: State, step: Step)
    requires LockInv(cfg, s) && PositionsInv(s.calls) && Enabled(cfg, s, step)
    ensures PositionsInv(Apply(cfg, s, step).calls)
  {
    if step.Publish? {
      forall i | 0 <= i < |s.calls| ensures s.calls[i] in s.calls {
      }
    }
  }

  // ----- Failure timestamps ----------------------------------------------------------------

  /** Consecutive failures are at least the scheduled wait apart. */
  ghost predicate Spaced(b: RetryBackoff, stamps: seq<int>) {
    forall k :: 1 <= k < |stamps| ==> stamps[k] >= stamps[k - 1] + SqlWait(b, k)
  }

  ghost predicate StampsOk(cfg: Config, r: Row, stamps: seq<int>) {
    && Spaced(cfg.backoff, stamps)
    && |stamps| == (if r.status.Sent? then r.attempts - 1 else r.attempts)
    && (r.status.Failed? || r.status.Dead? ==>
          |stamps| >= 1 && r.lastAttemptAt == Some(stamps[|stamps| - 1]))
  }

  ghost predicate StampsInv(cfg: Config, s: State) {
    && s.stamps.Keys == s.rows.Keys + s.purged.Keys
    && forall id :: id in s.rows ==> StampsOk(cfg, s.rows[id], s.stamps[id])
  }

  lemma StampsInvKept(cfg: Config, s: State, step: Step)
    requires cfg.maxAttempts >= 1 && LockInv(cfg, s) && StatusInv(cfg, s) && StampsInv(cfg, s)
    requires Enabled(cfg, s, step)
    ensures StampsInv(cfg, Apply(cfg, s, step))
  {
    var s' := Apply(cfg, s, step);
    forall id | id in s'.rows
      ensures id in s'.stamps && StampsOk(cfg, s'.rows[id], s'.stamps[id])
    {
      if step.Commit? {
        var _ := CommitRow(cfg, s, step, id);
        CommitStamps(cfg, s, step, id);
      } else {
        OtherStepsKeepStamps(cfg, s, step, id);
      }
    }
    StampsCoverEvents(cfg, s, step);
  }

  lemma StampsCoverEvents(cfg: Config, s: State, step: Step)
    requires LockInv(cfg, s) && StampsInv(cfg, s) && Enabled(cfg, s, step)
    ensures Apply(cfg, s, step).stamps.Keys == Apply(cfg, s, step).rows.Keys + Apply(cfg, s, step).purged.Keys
  {
  }

  lemma CommitStamps(cfg: Config, s: State, step: Step, id: EventId)
    requires cfg.maxAttempts >= 1 && LockInv(cfg, s)
    requires step.Commit? && Enabled(cfg, s, step)
    requires id in s.rows && id in s.stamps && RowOk(cfg, s.rows[id]) && StampsOk(cfg, s.rows[id], s.stamps[id])
    ensures id in Apply(cfg, s, step).rows && id in Apply(cfg, s, step).stamps
    ensures StampsOk(cfg, Apply(cfg, s, step).rows[id], Apply(cfg, s, step).stamps[id])
  {
    var tx := s.open[step.batch];
    var i := CommitRow(cfg, s, step, id);
    if id in Ids(tx.events) && !tx.replies[i].Acked? {
      FailureStamp(cfg, s.rows[id], s.stamps[id], tx.now);
    }
  }

  /** A row that is eligible at `now` may be stamped `now`: the wait since its last failure is over. */
  lemma FailureStamp(cfg: Config, r: Row, stamps: seq<int>, now: int)
    requires cfg.maxAttempts >= 1 && r.Live() && Eligible(cfg, r, now)
    requires RowOk(cfg, r) && StampsOk(cfg, r, stamps)
    ensures StampsOk(cfg, AfterFailed(r, now, cfg.maxAttempts), stamps + [now])
  {
  }

  lemma OtherStepsKeepStamps(cfg: Config, s: State, step: Step, id: EventId)
    requires LockInv(cfg, s) && StatusInv(cfg, s) && StampsInv(cfg, s)
    requires !step.Commit? && Enabled(cfg, s, step) && id in Apply(cfg, s, step).rows
    ensures id in Apply(cfg, s, step).stamps
    ensures StampsOk(cfg, Apply(cfg, s, step).rows[id], Apply(cfg, s, step).stamps[id])
  {
    if id in s.rows {
      assert StampsOk(cfg, s.rows[id], s.stamps[id]);
    }
  }

  lemma {:induction false} SpacedTotal(b: RetryBackoff, stamps: seq<int>, n: nat)
    requires n < |stamps| && Spaced(b, stamps)
    ensures stamps[n] >= stamps[0] + TotalWait(b, n)
  {
    if n > 0 {
      SpacedTotal(b, stamps, n - 1);
    }
  }

  // ----- Counters --------------------------------------------------------------------------

  /** Calls of one kind made by one of `batches`, over all events. */
  function Total(cfg: Config, kind: Kind, calls: seq<Call>, batches: set<BatchId>): nat {
    if calls == [] then 0
    else
      var c := calls[|calls| - 1];
      Total(cfg, kind, calls[..|calls| - 1], batches)
      + if c.batch in batches && Is(cfg, kind, c.event, c.reply) then 1 else 0
  }

  function AllBatches(s: State): set<BatchId> {
    s.open.Keys + s.fates.Keys
  }

  /** Every publish call is counted once: a success counts as processed and published, an
      error as failed, and a budget-exhausting error also as dead. */
  ghost predicate MetricsInv(cfg: Config, s: State) {
    && s.metrics.processed == s.metrics.published == Total(cfg, Delivery, s.calls, AllBatches(s))
    && s.metrics.processed + s.metrics.failed == |s.calls|
    && s.metrics.dead == Total(cfg, Exhausted, s.calls, AllBatches(s))
  }

  lemma {:induction false} TotalGrows(cfg: Config, kind: Kind, calls: seq<Call>, a: set<BatchId>, b: set<BatchId>)
    requires forall c :: c in calls ==> (c.batch in a <==> c.batch in b)
    ensures Total(cfg, kind, calls, a) == Total(cfg, kind, calls, b)
  {
    if calls != [] {
      assert calls[|calls| - 1] in calls;
      TotalGrows(cfg, kind, calls[..|calls| - 1], a, b);
    }
  }

  lemma MetricsInvKept(cfg: Config, s: State, step: Step)
    requires LockInv(cfg, s) && CallsInv(cfg, s) && MetricsInv(cfg, s) && Enabled(cfg, s, step)
    ensures MetricsInv(cfg, Apply(cfg, s, step))
  {
    var s' := Apply(cfg, s, step);
    forall kind ensures Total(cfg, kind, s.calls, AllBatches(s')) == Total(cfg, kind, s.calls, AllBatches(s)) {
      TotalGrows(cfg, kind, s.calls, AllBatches(s'), AllBatches(s));
    }
    if step.Publish? {
      var tx := TxOf(s, step.batch);
      assert s'.calls[..|s.calls|] == s.calls;
    }
  }

  // ----- Fetched events ----------------------------------------------------------------------

  /** Claimed but unpublished events of some batches. */
  ghost function UnansweredIn(txs: map<BatchId, Tx>, batches: set<BatchId>): nat
    requires batches <= txs.Keys
  {
    if exists b :: b in batches
    then txs[Pick(batches)].Unanswered() + UnansweredIn(txs, batches - {Pick(batches)})
    else 0
  }

  ghost function Unanswered(txs: map<BatchId, Tx>): nat {
    UnansweredIn(txs, txs.Keys)
  }

  lemma {:induction false} UnansweredSplit(txs: map<BatchId, Tx>, batches: set<BatchId>, b: BatchId)
    requires b in batches && batches <= txs.Keys
    ensures UnansweredIn(txs, batches) == txs[b].Unanswered() + UnansweredIn(txs, batches - {b})
    decreases |batches|
  {
    var p := Pick(batches);
    if p != b {
      UnansweredSplit(txs, batches - {p}, b);
      UnansweredSplit(txs, batches - {b}, p);
      assert batches - {p} - {b} == batches - {b} - {p};
    }
  }

  lemma {:induction false} UnansweredElsewhere(txs: map<BatchId, Tx>, txs': map<BatchId, Tx>, batches: set<BatchId>)
    requires batches <= txs.Keys && batches <= txs'.Keys
    requires forall b :: b in batches ==> txs[b] == txs'[b]
    ensures UnansweredIn(txs, batches) == UnansweredIn(txs', batches)
    decreases |batches|
  {
    if exists b :: b in batches {
      UnansweredElsewhere(txs, txs', batches - {Pick(batches)});
    }
  }

  lemma UnansweredPut(txs: map<BatchId, Tx>, b: BatchId, tx: Tx)
    ensures Unanswered(txs[b := tx]) + (if b in txs then txs[b].Unanswered() else 0)
            == Unanswered(txs) + tx.Unanswered()
  {
    var txs' := txs[b := tx];
    UnansweredSplit(txs', txs'.Keys, b);
    UnansweredElsewhere(txs, txs', txs'.Keys - {b});
    if b in txs {
      UnansweredSplit(txs, txs.Keys, b);
      assert txs'.Keys == txs.Keys;
    } else {
      assert txs'.Keys - {b} == txs.Keys;
    }
  }

  lemma UnansweredDrop(txs: map<BatchId, Tx>, b: BatchId)
    requires b in txs
    ensures Unanswered(txs - {b}) + txs[b].Unanswered() == Unanswered(txs)
  {
    UnansweredSplit(txs, txs.Keys, b);
    UnansweredElsewhere(txs, txs - {b}, txs.Keys - {b});
    assert (txs - {b}).Keys == txs.Keys - {b};
  }

  /** Every fetched event has been published (once, and counted as processed or failed), or waits
      in a batch whose worker still publishes, or was abandoned by a crash. */
  ghost predicate FetchInv(s: State) {
    s.metrics.fetched == |s.calls| + s.abandoned + Unanswered(s.open) + Unanswered(s.orphans)
  }

  lemma FetchInvKept(cfg: Config, s: State, step: Step)
    requires LockInv(cfg, s) && FetchInv(s) && Enabled(cfg, s, step)
    ensures FetchInv(Apply(cfg, s, step))
  {
    match step {
      case Begin(b) => UnansweredPut(s.open, b, Tx(s.clock, false, [], []));
      case Claim(b, ids) => ClaimKeepsFetch(cfg, s, b, ids);
      case Publish(b, reply) => PublishKeepsFetch(cfg, s, b, reply);
      case Commit(b, _) => UnansweredDrop(s.open, b);
      case Rollback(b) => if b in s.open { UnansweredDrop(s.open, b); }
      case Sever(b) => SeverKeepsFetch(cfg, s, b);
      case _ =>
    }
  }

  lemma ClaimKeepsFetch(cfg: Config, s: State, b: BatchId, ids: seq<EventId>)
    requires LockInv(cfg, s) && FetchInv(s) && Enabled(cfg, s, Claim(b, ids))
    ensures FetchInv(Apply(cfg, s, Claim(b, ids)))
  {
    assert TxHolds(cfg, s.rows, s.open[b]);
    UnansweredPut(s.open, b, s.open[b].(claimed := true, events := EventsOf(s.rows, ids), replies := []));
  }

  lemma PublishKeepsFetch(cfg: Config, s: State, b: BatchId, reply: Reply)
    requires LockInv(cfg, s) && FetchInv(s) && Enabled(cfg, s, Publish(b, reply))
    ensures FetchInv(Apply(cfg, s, Publish(b, reply)))
  {
    var tx := TxOf(s, b);
    UnansweredPut(if b in s.open then s.open else s.orphans, b, tx.(replies := tx.replies + [reply]));
  }

  lemma SeverKeepsFetch(cfg: Config, s: State, b: BatchId)
    requires LockInv(cfg, s) && FetchInv(s) && Enabled(cfg, s, Sever(b))
    ensures FetchInv(Apply(cfg, s, Sever(b)))
  {
    assert b !in s.orphans;
    UnansweredDrop(s.open, b);
    UnansweredPut(s.orphans, b, s.open[b]);
  }
}
