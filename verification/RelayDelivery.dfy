/** A live row is never stuck: from every reachable state some run delivers it. */
module RelayDelivery {
  import opened Wrappers
  import opened Backoff
  import opened Outbox
  import opened RelaySystem
  import opened RelaySafety
  import opened RelayHistory
  import opened RelayTheorems

  ghost predicate Leads(cfg: Config, s: State, t: State) {
    exists steps :: Run(cfg, s, steps) && t == Final(cfg, s, steps)
  }

  /** `t` lies on a run from `s`. */
  ghost predicate OnTheWay(cfg: Config, s: State, t: State) {
    cfg.Accepted() && Inv(cfg, t) && Leads(cfg, s, t)
  }

  lemma Go(cfg: Config, s: State, t: State, step: Step) returns (u: State)
    requires OnTheWay(cfg, s, t) && Enabled(cfg, t, step)
    ensures u == Apply(cfg, t, step) && OnTheWay(cfg, s, u)
  {
    var steps :| Run(cfg, s, steps) && t == Final(cfg, s, steps);
    RunAppend(cfg, s, steps, step);
    StepKeepsInv(cfg, t, step);
    u := Apply(cfg, t, step);
  }

  /** Every open batch can end at once. */
  lemma {:induction false} ReleaseAll(cfg: Config, s: State, t: State) returns (u: State)
    requires OnTheWay(cfg, s, t)
    ensures OnTheWay(cfg, s, u) && u.rows == t.rows && u.clock == t.clock && u.open == map[]
    decreases |t.open|
  {
    hide Inv;
    if exists b :: b in t.open.Keys {
      var b := Pick(t.open.Keys);
      u := Go(cfg, s, t, Rollback(b));
      assert u.open.Keys == t.open.Keys - {b};
      u := ReleaseAll(cfg, s, u);
    } else {
      u := t;
    }
  }

  lemma {:induction false} FreshBatch(names: set<BatchId>) returns (b: BatchId)
    ensures forall n :: n in names ==> n < b
    decreases |names|
  {
    if exists n :: n in names {
      var n := Pick(names);
      var c := FreshBatch(names - {n});
      b := if c > n then c else n + 1;
      forall m | m in names ensures m < b {
        assert m == n || m in names - {n};
      }
    } else {
      b := 0;
    }
  }

  /** Rows a batch that begins now could still claim. */
  function Waiting(cfg: Config, s: State): set<EventId> {
    set id | id in s.rows && Candidate(cfg, s.rows, LockedIds(s), s.clock, id)
  }

  /** Another batch begins and claims what is oldest. */
  lemma ClaimMore(cfg: Config, s: State, t: State) returns (u: State, b: BatchId, ids: seq<EventId>)
    requires OnTheWay(cfg, s, t)
    ensures OnTheWay(cfg, s, u) && u.rows == t.rows && u.clock == t.clock
    ensures Claimable(cfg, t.rows, LockedIds(t), t.clock, ids)
    ensures b in u.open && u.open[b] == Tx(t.clock, true, EventsOf(t.rows, ids), [])
    ensures LockedIds(u) == LockedIds(t) + (set id | id in ids)
  {
    b := FreshBatch(t.open.Keys + t.fates.Keys);
    var begun := Go(cfg, s, t, Begin(b));
    BeginLocksNothing(cfg, t, b);
    ids := ClaimExists(cfg, t.rows, LockedIds(t), t.clock);
    u := Go(cfg, s, begun, Claim(b, ids));
    ClaimLocksItsRows(cfg, begun, b, ids);
  }

  lemma BeginLocksNothing(cfg: Config, s: State, b: BatchId)
    requires Enabled(cfg, s, Begin(b))
    ensures LockedIds(Apply(cfg, s, Begin(b))) == LockedIds(s)
  {
    var s' := Apply(cfg, s, Begin(b));
    forall id ensures id in LockedIds(s') <==> id in LockedIds(s) {
      if c :| c in s.open && id in Ids(s.open[c].events) {
        assert s'.open[c] == s.open[c];
      }
    }
  }

  lemma ClaimLocksItsRows(cfg: Config, s: State, b: BatchId, ids: seq<EventId>)
    requires LockInv(cfg, s) && Enabled(cfg, s, Claim(b, ids))
    ensures LockedIds(Apply(cfg, s, Claim(b, ids))) == LockedIds(s) + (set id | id in ids)
  {
    var s' := Apply(cfg, s, Claim(b, ids));
    assert TxHolds(cfg, s.rows, s.open[b]);
    forall id ensures id in LockedIds(s') <==> id in LockedIds(s) || id in ids {
      if c :| c in s.open && id in Ids(s.open[c].events) {
        assert c != b && s'.open[c] == s.open[c];
      }
      if i :| 0 <= i < |ids| && ids[i] == id {
        assert s'.open[b].events[i].id == id;
      }
      if id in Ids(s'.open[b].events) {
        var i :| 0 <= i < |ids| && s'.open[b].events[i].id == id;
        assert ids[i] == id;
      }
    }
  }

  /** Claiming on and on reaches every eligible row: SKIP LOCKED passes each row once. */
  lemma {:induction false} ReachRow(cfg: Config, s: State, t: State, id: EventId) returns (u: State, b: BatchId)
    requires OnTheWay(cfg, s, t) && id in Waiting(cfg, t)
    ensures OnTheWay(cfg, s, u) && u.rows == t.rows
    ensures b in u.open && u.open[b].replies == [] && id in Ids(u.open[b].events)
    decreases |Waiting(cfg, t)|
  {
    hide Inv;
    hide Claimable;
    var ids;
    u, b, ids := ClaimMore(cfg, s, t);
    if id in ids {
      var i :| 0 <= i < |ids| && ids[i] == id;
      assert u.open[b].events[i].id == id;
    } else {
      ClaimShrinksWaiting(cfg, t, u, ids, id);
      u, b := ReachRow(cfg, s, u, id);
    }
  }

  lemma ClaimShrinksWaiting(cfg: Config, t: State, u: State, ids: seq<EventId>, id: EventId)
    requires cfg.Accepted() && Claimable(cfg, t.rows, LockedIds(t), t.clock, ids) && id in Waiting(cfg, t) && id !in ids
    requires u.rows == t.rows && u.clock == t.clock && LockedIds(u) == LockedIds(t) + (set x | x in ids)
    ensures id in Waiting(cfg, u) && |Waiting(cfg, u)| < |Waiting(cfg, t)|
  {
    assert Candidate(cfg, t.rows, LockedIds(t), t.clock, ids[0]);
    assert Waiting(cfg, u) <= Waiting(cfg, t) - {ids[0]};
    SubsetSize(Waiting(cfg, u), Waiting(cfg, t) - {ids[0]});
  }

  function NextOffset(calls: seq<Call>): (o: int)
    ensures forall c :: c in calls && c.Stored() ==> c.reply.offset < o
  {
    if calls == [] then 0
    else
      var o, c := NextOffset(calls[..|calls| - 1]), calls[|calls| - 1];
      assert calls == calls[..|calls| - 1] + [c];
      if c.Stored() && c.reply.offset >= o then c.reply.offset + 1 else o
  }

  /** The broker acknowledges everything the batch still has to publish. */
  lemma {:induction false} AcknowledgeAll(cfg: Config, s: State, t: State, b: BatchId) returns (u: State)
    requires OnTheWay(cfg, s, t) && b in t.open
    requires forall r :: r in t.open[b].replies ==> r.Acked? && r.partition == 0
    ensures OnTheWay(cfg, s, u) && u.rows == t.rows && b in u.open && u.open[b].events == t.open[b].events
    ensures |u.open[b].replies| == |u.open[b].events|
    ensures forall r :: r in u.open[b].replies ==> r.Acked? && r.partition == 0
    decreases t.open[b].Unanswered()
  {
    assert TxHolds(cfg, t.rows, t.open[b]);
    if |t.open[b].replies| == |t.open[b].events| {
      u := t;
    } else {
      u := Go(cfg, s, t, Publish(b, Acked(0, NextOffset(t.calls))));
      u := AcknowledgeAll(cfg, s, u, b);
    }
  }

  lemma AcknowledgedBatchFits(cfg: Config, s: State, b: BatchId)
    requires cfg.maxAttempts <= SMALLINT_MAX && Inv(cfg, s) && b in s.open
    requires |s.open[b].replies| == |s.open[b].events|
    requires forall r :: r in s.open[b].replies ==> r.Acked? && r.partition == 0
    ensures s.open[b].WellFormed() && CommitFits(cfg, s, b)
  {
    var tx := s.open[b];
    assert TxHolds(cfg, s.rows, tx);
    OutcomeFitsExactly(s.rows, tx.events, tx.replies, tx.now, cfg.maxAttempts);
    forall i | 0 <= i < |tx.events|
      ensures StorableRow(Outcome(s.rows[tx.events[i].id], tx.events[i].id, tx.replies[i], tx.now, cfg.maxAttempts))
    {
      assert Held(cfg, s.rows, tx.now, tx.events[i]);
      assert tx.replies[i] in tx.replies;
      assert RowOk(cfg, s.rows[tx.events[i].id]);
    }
  }

  lemma CommitAcknowledged(cfg: Config, s: State, b: BatchId, id: EventId)
    requires cfg.maxAttempts <= SMALLINT_MAX && Inv(cfg, s) && b in s.open && id in Ids(s.open[b].events)
    requires |s.open[b].replies| == |s.open[b].events|
    requires forall r :: r in s.open[b].replies ==> r.Acked? && r.partition == 0
    ensures Enabled(cfg, s, Commit(b, true)) && PolledSent(Apply(cfg, s, Commit(b, true)), id)
  {
    AcknowledgedBatchFits(cfg, s, b);
    var i := CommitRow(cfg, s, Commit(b, true), id);
    assert s.open[b].replies[i] in s.open[b].replies;
  }

  /** From every reachable state a live row can still be delivered, as long as the retry budget
      fits the attempts column: some run marks it SENT with a record in the log. */
  lemma LiveRowsCanBeDelivered(cfg: Config, s: State, id: EventId) returns (t: State)
    requires Reachable(cfg, s) && cfg.maxAttempts <= SMALLINT_MAX
    requires id in s.rows && s.rows[id].Live()
    ensures Leads(cfg, s, t) && PolledSent(t, id) && Records(t.calls, id) >= 1
  {
    ReachableInv(cfg, s);
    assert Run(cfg, s, []) && Final(cfg, s, []) == s;
    hide Inv;
    hide Apply;
    hide Enabled;
    t := ReleaseAll(cfg, s, s);
    t := WaitOut(cfg, s, t, id);
    var b;
    t, b := ReachRow(cfg, s, t, id);
    t := AcknowledgeAll(cfg, s, t, b);
    CommitAcknowledged(cfg, t, b, id);
    t := Go(cfg, s, t, Commit(b, true));
    DeliveredIsRecorded(cfg, t, id);
  }

  /** With nothing locked a live row becomes claimable by waiting. */
  lemma WaitOut(cfg: Config, s: State, t: State, id: EventId) returns (u: State)
    requires OnTheWay(cfg, s, t) && t.open == map[] && id in t.rows && t.rows[id].Live()
    ensures OnTheWay(cfg, s, u) && u.rows == t.rows && id in Waiting(cfg, u)
  {
    hide Inv;
    var due := if t.rows[id].lastAttemptAt.Some?
               then t.rows[id].lastAttemptAt.value + SqlWait(cfg.backoff, t.rows[id].attempts) - t.clock else 0;
    u := Go(cfg, s, t, Tick(if due > 0 then due else 0));
    assert LockedIds(u) == {};
  }

  lemma DeliveredIsRecorded(cfg: Config, s: State, id: EventId)
    requires Inv(cfg, s) && PolledSent(s, id)
    ensures Records(s.calls, id) >= 1
  {
    RecordsAreDeliveredOrLost(cfg, s.calls, id, AllBatches(s));
    SplitByFate(cfg, Delivery, s, id);
  }

  /** A commit is possible exactly when no claimed row has used up the attempts column and every
      acknowledged partition fits: one row beyond that keeps its whole batch from committing. */
  lemma CommitPossibleExactly(cfg: Config, s: State, b: BatchId, reported: bool)
    requires Inv(cfg, s) && b in s.open && |s.open[b].replies| == |s.open[b].events| > 0
    ensures Enabled(cfg, s, Commit(b, reported))
            <==> forall i :: 0 <= i < |s.open[b].events| ==>
                   && s.open[b].events[i].attempts < 32767
                   && (s.open[b].replies[i].Acked? ==> s.open[b].replies[i].partition <= 32767)
  {
    hide Inv;
    hide Enabled;
    hide OutcomeFits;
    hide Outcome;
    hide StorableRow;
    hide RowOk;
    hide SentRefs;
    hide FailedIds;
    hide Held;
    var tx := s.open[b];
    CommitNeedsFit(cfg, s, b, reported);
    OutcomeFitsExactly(s.rows, tx.events, tx.replies, tx.now, cfg.maxAttempts);
    OutcomesFitColumns(cfg, s.rows, tx.now, tx.events, tx.replies);
  }

  lemma CommitNeedsFit(cfg: Config, s: State, b: BatchId, reported: bool)
    requires Inv(cfg, s) && b in s.open && |s.open[b].replies| == |s.open[b].events| > 0
    ensures var tx := s.open[b];
            && AllHeld(cfg, s.rows, tx.now, tx.events) && DistinctIds(tx.events)
            && (forall id :: id in s.rows ==> RowOk(cfg, s.rows[id]))
            && (Enabled(cfg, s, Commit(b, reported))
                <==> OutcomeFits(s.rows, SentRefs(tx.events, tx.replies), FailedIds(tx.events, tx.replies), tx.now,
                                 cfg.maxAttempts))
  {
    hide OutcomeFits;
    assert TxHolds(cfg, s.rows, s.open[b]);
  }

  lemma OutcomesFitColumns(cfg: Config, rows: Table, now: int, events: seq<Event>, replies: seq<Reply>)
    requires AllHeld(cfg, rows, now, events) && |replies| == |events|
    requires forall id :: id in rows ==> RowOk(cfg, rows[id])
    ensures forall i :: 0 <= i < |events| ==>
              && events[i].id in rows
              && (StorableRow(Outcome(rows[events[i].id], events[i].id, replies[i], now, cfg.maxAttempts))
                  <==> events[i].attempts < 32767 && (replies[i].Acked? ==> replies[i].partition <= 32767))
  {
    forall i | 0 <= i < |events|
      ensures events[i].id in rows
      ensures StorableRow(Outcome(rows[events[i].id], events[i].id, replies[i], now, cfg.maxAttempts))
              <==> events[i].attempts < 32767 && (replies[i].Acked? ==> replies[i].partition <= 32767)
    {
      assert Held(cfg, rows, now, events[i]);
      OutcomeFitsColumns(cfg, rows, now, events[i], replies[i]);
    }
  }

  lemma OutcomeFitsColumns(cfg: Config, rows: Table, now: int, e: Event, reply: Reply)
    requires Held(cfg, rows, now, e) && RowOk(cfg, rows[e.id])
    ensures StorableRow(Outcome(rows[e.id], e.id, reply, now, cfg.maxAttempts))
            <==> e.attempts < SMALLINT_MAX && (reply.Acked? ==> reply.partition <= SMALLINT_MAX)
  {
  }
}
