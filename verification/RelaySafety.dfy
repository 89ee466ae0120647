/** What every reachable state of the relay satisfies about rows and records. */
module RelaySafety {
  import opened Wrappers
  import opened Outbox
  import opened RelaySystem

  // ----- Status and attempts ---------------------------------------------------------------

  ghost predicate RowOk(cfg: Config, r: Row) {
    match r.status
    case Pending => r.attempts == 0 && r.lastAttemptAt.None? && r.partition.None? && r.settledBy.None?
    case Failed => 1 <= r.attempts < cfg.maxAttempts && r.lastAttemptAt.Some? && r.partition.None? && r.settledBy.None?
    case Dead => r.attempts == cfg.maxAttempts && r.lastAttemptAt.Some? && r.partition.None? && r.settledBy.None?
    case Sent => 1 <= r.attempts <= cfg.maxAttempts && r.sentAt.Some? && r.partition.Some? && r.offset.Some?
                 && r.settledBy.Some?
  }

  ghost predicate StatusInv(cfg: Config, s: State) {
    && (forall id :: id in s.rows ==> 0 < id && RowOk(cfg, s.rows[id]))
    && (forall id :: id in s.purged ==> 0 < id && RowOk(cfg, s.purged[id]) && s.purged[id].status.Sent?)
  }

  lemma StatusInvKept(cfg: Config, s: State, step: Step)
    requires cfg.maxAttempts >= 1 && LockInv(cfg, s) && StatusInv(cfg, s) && Enabled(cfg, s, step)
    ensures StatusInv(cfg, Apply(cfg, s, step))
  {
    var s' := Apply(cfg, s, step);
    if step.Commit? {
      forall id | id in s'.rows ensures 0 < id && RowOk(cfg, s'.rows[id]) {
        var _ := CommitRow(cfg, s, step, id);
      }
    }
  }

  /** SENT and DEAD are absorbing although the batch updates carry no status guard: only the
      purge touches such a row, and it takes SENT rows whole. */
  lemma TerminalRowsAbsorb(cfg: Config, s: State, step: Step, id: EventId)
    requires LockInv(cfg, s) && Enabled(cfg, s, step)
    requires id in s.rows && !s.rows[id].Live()
    ensures var s' := Apply(cfg, s, step);
            || (id in s'.rows && s'.rows[id] == s.rows[id])
            || (step.Purge? && s.rows[id].status.Sent?
                && id !in s'.rows && id in s'.purged && s'.purged[id] == s.rows[id])
  {
    if step.Commit? {
      var _ := CommitRow(cfg, s, step, id);
    }
  }

  // ----- Counting publishes per event ------------------------------------------------------

  /** Kinds of publisher calls: acknowledged, lost acknowledgement, failure that used up the
      retry budget as the Go loop sees it. */
  datatype Kind = Delivery | Lost | Exhausted

  predicate Is(cfg: Config, kind: Kind, e: Event, reply: Reply) {
    match kind
    case Delivery => reply.Acked?
    case Lost => reply.LostAck?
    case Exhausted => !reply.Acked? && e.attempts + 1 >= cfg.maxAttempts
  }

  /** Calls of one kind for event `id` made by one of `batches`. */
  function Tally(cfg: Config, kind: Kind, calls: seq<Call>, id: EventId, batches: set<BatchId>): nat {
    if calls == [] then 0
    else
      var c := calls[|calls| - 1];
      Tally(cfg, kind, calls[..|calls| - 1], id, batches)
      + if c.event.id == id && c.batch in batches && Is(cfg, kind, c.event, c.reply) then 1 else 0
  }

  /** Records of event `id` in the broker's log. */
  function Records(calls: seq<Call>, id: EventId): nat {
    if calls == [] then 0
    else
      var c := calls[|calls| - 1];
      Records(calls[..|calls| - 1], id) + if c.event.id == id && c.Stored() then 1 else 0
  }

  /** The same count inside one batch. */
  function TxTally(cfg: Config, kind: Kind, events: seq<Event>, replies: seq<Reply>, id: EventId): nat
    requires |replies| <= |events|
  {
    if replies == [] then 0
    else
      var n := |replies| - 1;
      TxTally(cfg, kind, events, replies[..n], id)
      + if events[n].id == id && Is(cfg, kind, events[n], replies[n]) then 1 else 0
  }

  lemma {:induction false} TallySplit(cfg: Config, kind: Kind, calls: seq<Call>, id: EventId,
                                      a: set<BatchId>, b: set<BatchId>)
    requires a !! b
    ensures Tally(cfg, kind, calls, id, a + b) == Tally(cfg, kind, calls, id, a) + Tally(cfg, kind, calls, id, b)
  {
    if calls != [] {
      TallySplit(cfg, kind, calls[..|calls| - 1], id, a, b);
    }
  }

  lemma {:induction false} TallyForeign(cfg: Config, kind: Kind, calls: seq<Call>, id: EventId, batches: set<BatchId>)
    requires forall c :: c in calls ==> c.batch !in batches
    ensures Tally(cfg, kind, calls, id, batches) == 0
  {
    if calls != [] {
      TallyForeign(cfg, kind, calls[..|calls| - 1], id, batches);
    }
  }

  lemma TallyAppend(cfg: Config, kind: Kind, calls: seq<Call>, c: Call, id: EventId, batches: set<BatchId>)
    ensures Tally(cfg, kind, calls + [c], id, batches)
            == Tally(cfg, kind, calls, id, batches)
               + if c.event.id == id && c.batch in batches && Is(cfg, kind, c.event, c.reply) then 1 else 0
  {
    assert (calls + [c])[..|calls|] == calls;
  }

  lemma {:induction false} TxTallyForeign(cfg: Config, kind: Kind, events: seq<Event>, replies: seq<Reply>, id: EventId)
    requires |replies| <= |events|
    requires forall i :: 0 <= i < |replies| ==> events[i].id != id
    ensures TxTally(cfg, kind, events, replies, id) == 0
  {
    if replies != [] {
      TxTallyForeign(cfg, kind, events, replies[..|replies| - 1], id);
    }
  }

  lemma {:induction false} TxTallyAt(cfg: Config, kind: Kind, events: seq<Event>, replies: seq<Reply>, i: nat)
    requires i < |replies| <= |events| && DistinctIds(events)
    ensures TxTally(cfg, kind, events, replies, events[i].id) == if Is(cfg, kind, events[i], replies[i]) then 1 else 0
  {
    var n := |replies| - 1;
    if i == n {
      TxTallyForeign(cfg, kind, events, replies[..n], events[i].id);
    } else {
      TxTallyAt(cfg, kind, events, replies[..n], i);
    }
  }

  /** The calls of an open batch are exactly its replies so far. */
  ghost predicate CallsInv(cfg: Config, s: State) {
    && (forall c :: c in s.calls ==> c.batch in s.open || c.batch in s.fates)
    && (forall b, kind, id :: b in s.open && s.open[b].WellFormed() ==>
          Tally(cfg, kind, s.calls, id, {b}) == TxTally(cfg, kind, s.open[b].events, s.open[b].replies, id))
  }

  lemma CallsInvKept(cfg: Config, s: State, step: Step)
    requires LockInv(cfg, s) && CallsInv(cfg, s) && Enabled(cfg, s, step)
    ensures CallsInv(cfg, Apply(cfg, s, step))
  {
    var s' := Apply(cfg, s, step);
    match step {
      case Begin(b) =>
        forall kind, id ensures Tally(cfg, kind, s.calls, id, {b}) == 0 {
          TallyForeign(cfg, kind, s.calls, id, {b});
        }
      case Publish(b, reply) => PublishKeepsCalls(cfg, s, b, reply);
      case _ =>
    }
  }

  lemma PublishKeepsCalls(cfg: Config, s: State, b: BatchId, reply: Reply)
    requires LockInv(cfg, s) && CallsInv(cfg, s) && Enabled(cfg, s, Publish(b, reply))
    ensures CallsInv(cfg, Apply(cfg, s, Publish(b, reply)))
  {
    var s' := Apply(cfg, s, Publish(b, reply));
    var tx := TxOf(s, b);
    var call := Call(tx.events[|tx.replies|], b, reply);
    forall c, kind, id | c in s'.open && s'.open[c].WellFormed()
      ensures Tally(cfg, kind, s'.calls, id, {c}) == TxTally(cfg, kind, s'.open[c].events, s'.open[c].replies, id)
    {
      TallyAppend(cfg, kind, s.calls, call, id, {c});
      if c == b {
        assert (tx.replies + [reply])[..|tx.replies|] == tx.replies;
      }
    }
  }

  // ----- Each event's committed publishes --------------------------------------------------

  function Batches(s: State, fate: Fate): set<BatchId> {
    set b | b in s.fates && s.fates[b] == fate
  }

  /** Marked SENT by a polling batch (a CDC mark is stamped by the other writer). */
  predicate PolledSent(s: State, id: EventId) {
    || (id in s.rows && s.rows[id].status.Sent? && s.rows[id].settledBy == Some(Poller))
    || (id in s.purged && s.purged[id].status.Sent? && s.purged[id].settledBy == Some(Poller))
  }

  predicate IsDead(s: State, id: EventId) {
    id in s.rows && s.rows[id].status.Dead?
  }

  /** Committed batches hold one acknowledged publish of each polled-SENT event and one
      budget-exhausting failure of each DEAD event, and none of any other event. */
  ghost predicate MarksInv(cfg: Config, s: State) {
    forall id ::
      && Tally(cfg, Delivery, s.calls, id, Batches(s, Committed)) == (if PolledSent(s, id) then 1 else 0)
      && Tally(cfg, Exhausted, s.calls, id, Batches(s, Committed)) == (if IsDead(s, id) then 1 else 0)
  }

  lemma MarksInvKept(cfg: Config, s: State, step: Step)
    requires cfg.maxAttempts >= 1 && LockInv(cfg, s) && StatusInv(cfg, s) && CallsInv(cfg, s) && MarksInv(cfg, s)
    requires Enabled(cfg, s, step)
    ensures MarksInv(cfg, Apply(cfg, s, step))
  {
    var s' := Apply(cfg, s, step);
    if step.Commit? {
      CommitKeepsMarks(cfg, s, step);
    } else {
      assert Batches(s', Committed) == Batches(s, Committed);
      forall id
        ensures Tally(cfg, Delivery, s'.calls, id, Batches(s', Committed)) == (if PolledSent(s', id) then 1 else 0)
        ensures Tally(cfg, Exhausted, s'.calls, id, Batches(s', Committed)) == (if IsDead(s', id) then 1 else 0)
      {
        OtherStepsKeepTallies(cfg, s, step, id, Delivery);
        OtherStepsKeepTallies(cfg, s, step, id, Exhausted);
        OtherStepsKeepMarks(cfg, s, step, id);
      }
    }
  }

  lemma OtherStepsKeepMarks(cfg: Config, s: State, step: Step, id: EventId)
    requires LockInv(cfg, s) && Enabled(cfg, s, step) && !step.Commit?
    ensures PolledSent(Apply(cfg, s, step), id) == PolledSent(s, id)
    ensures IsDead(Apply(cfg, s, step), id) == IsDead(s, id)
  {
  }

  lemma OtherStepsKeepTallies(cfg: Config, s: State, step: Step, id: EventId, kind: Kind)
    requires LockInv(cfg, s) && Enabled(cfg, s, step) && !step.Commit?
    ensures Tally(cfg, kind, Apply(cfg, s, step).calls, id, Batches(s, Committed))
            == Tally(cfg, kind, s.calls, id, Batches(s, Committed))
  {
    if step.Publish? {
      var tx := TxOf(s, step.batch);
      var call := Call(tx.events[|tx.replies|], step.batch, step.reply);
      TallyAppend(cfg, kind, s.calls, call, id, Batches(s, Committed));
    }
  }

  lemma CommitKeepsMarks(cfg: Config, s: State, step: Step)
    requires cfg.maxAttempts >= 1 && LockInv(cfg, s) && StatusInv(cfg, s) && CallsInv(cfg, s) && MarksInv(cfg, s)
    requires step.Commit? && Enabled(cfg, s, step)
    ensures MarksInv(cfg, Apply(cfg, s, step))
  {
    var s' := Apply(cfg, s, step);
    forall id
      ensures Tally(cfg, Delivery, s'.calls, id, Batches(s', Committed)) == (if PolledSent(s', id) then 1 else 0)
      ensures Tally(cfg, Exhausted, s'.calls, id, Batches(s', Committed)) == (if IsDead(s', id) then 1 else 0)
    {
      CommitTallies(cfg, s, step, id, Delivery);
      CommitTallies(cfg, s, step, id, Exhausted);
      CommitMarks(cfg, s, step, id);
    }
  }

  /** A commit adds its batch's calls to the committed ones. */
  lemma CommitTallies(cfg: Config, s: State, step: Step, id: EventId, kind: Kind)
    requires LockInv(cfg, s) && CallsInv(cfg, s) && step.Commit? && Enabled(cfg, s, step)
    ensures var s' := Apply(cfg, s, step);
            var tx := s.open[step.batch];
            Tally(cfg, kind, s'.calls, id, Batches(s', Committed))
            == Tally(cfg, kind, s.calls, id, Batches(s, Committed)) + TxTally(cfg, kind, tx.events, tx.replies, id)
  {
    assert Batches(Apply(cfg, s, step), Committed) == Batches(s, Committed) + {step.batch};
    TallySplit(cfg, kind, s.calls, id, Batches(s, Committed), {step.batch});
  }

  /** What one commit adds for one event. */
  lemma CommitMarks(cfg: Config, s: State, step: Step, id: EventId)
    requires cfg.maxAttempts >= 1 && LockInv(cfg, s)
    requires step.Commit? && Enabled(cfg, s, step)
    ensures var s' := Apply(cfg, s, step);
            var tx := s.open[step.batch];
            && TxTally(cfg, Delivery, tx.events, tx.replies, id)
               == (if PolledSent(s', id) then 1 else 0) - (if PolledSent(s, id) then 1 else 0)
            && TxTally(cfg, Exhausted, tx.events, tx.replies, id)
               == (if IsDead(s', id) then 1 else 0) - (if IsDead(s, id) then 1 else 0)
  {
    var tx := s.open[step.batch];
    var i := CommitRow(cfg, s, step, id);
    if id in Ids(tx.events) {
      TxTallyAt(cfg, Delivery, tx.events, tx.replies, i);
      TxTallyAt(cfg, Exhausted, tx.events, tx.replies, i);
    } else {
      TxTallyForeign(cfg, Delivery, tx.events, tx.replies, id);
      TxTallyForeign(cfg, Exhausted, tx.events, tx.replies, id);
    }
  }
}
