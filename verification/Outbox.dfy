/** Rows of WLT_OUTBOX and the meaning of the statements the relay runs on them. */
module Outbox {
  import opened Wrappers
  import opened Backoff

  type EventId = int

  datatype Status = Pending | Failed | Sent | Dead

  /** Which relay marked a row SENT. */
  datatype Marker = Poller | CdcUpdater

  /** What is published: topic, key and payload, all chosen when the row was written. */
  datatype Message = Message(topic: string, key: string, payload: seq<bv8>)

  /** `settledBy` is history: no column tells the relays apart. */
  datatype Row = Row(
    msg: Message,
    createdAt: int,
    status: Status,
    attempts: nat,
    lastAttemptAt: Option<int>,
    sentAt: Option<int>,
    partition: Option<int>,
    offset: Option<int>,
    settledBy: Option<Marker>)
  {
    /** Still to be delivered. */
    predicate Live() {
      status.Pending? || status.Failed?
    }
  }

  type Table = map<EventId, Row>

  /** `domain.OutboxEvent`: the columns a claim reads. */
  datatype Event = Event(id: EventId, msg: Message, attempts: nat)

  /** `domain.SentRef`. */
  datatype SentRef = SentRef(event: EventId, partition: int, offset: int)

  datatype Config = Config(batchSize: nat, maxAttempts: nat, backoff: RetryBackoff) {
    predicate Accepted() {
      batchSize >= 1 && maxAttempts >= 1 && backoff.Accepted()
    }
  }

  /** What the configuration loader makes of the settings. */
  datatype Load = Loaded(cfg: Config) | Rejected

  function LoadConfig(batchSize: int, maxAttempts: int, retryDelay: int, retryMaxDelay: int): Load {
    if batchSize < 1 then Rejected
    else if maxAttempts < 1 then Rejected
    else if retryDelay <= 0 then Rejected
    else if retryMaxDelay < retryDelay then Rejected
    else Loaded(Config(batchSize, maxAttempts, RetryBackoff(retryDelay, retryMaxDelay)))
  }

  /** The accepted configurations are those the loader returns for int64 durations. */
  lemma AcceptedExactly(cfg: Config)
    ensures cfg.Accepted()
            <==> exists batchSize, maxAttempts, retryDelay, retryMaxDelay ::
                   && LoadConfig(batchSize, maxAttempts, retryDelay, retryMaxDelay) == Loaded(cfg)
                   && retryMaxDelay <= 9223372036854775807
  {
    if cfg.Accepted() {
      assert LoadConfig(cfg.batchSize, cfg.maxAttempts, cfg.backoff.base, cfg.backoff.cap) == Loaded(cfg);
    }
  }

  function NewRow(msg: Message, createdAt: int): Row {
    Row(msg, createdAt, Pending, 0, None, None, None, None, None)
  }

  /** The WHERE clause of the claim. */
  predicate Eligible(cfg: Config, r: Row, now: int) {
    || r.status.Pending?
    || (r.status.Failed?
        && (r.lastAttemptAt.None? || now >= r.lastAttemptAt.value + SqlWait(cfg.backoff, r.attempts)))
  }

  /** Rows a claim may take: eligible at the transaction's own `now` and locked by nobody. */
  predicate Candidate(cfg: Config, rows: Table, locked: set<EventId>, now: int, id: EventId) {
    id in rows && Eligible(cfg, rows[id], now) && id !in locked
  }

  /** ORDER BY created_at FOR UPDATE SKIP LOCKED LIMIT batchSize; ties in any order. */
  ghost predicate Claimable(cfg: Config, rows: Table, locked: set<EventId>, now: int, ids: seq<EventId>) {
    && |ids| <= cfg.batchSize
    && (forall i :: 0 <= i < |ids| ==> Candidate(cfg, rows, locked, now, ids[i]))
    && (forall i, j :: 0 <= i < j < |ids| ==>
          ids[i] != ids[j] && rows[ids[i]].createdAt <= rows[ids[j]].createdAt)
    && (forall id :: Candidate(cfg, rows, locked, now, id) && id !in ids ==>
          |ids| == cfg.batchSize
          && forall i :: 0 <= i < |ids| ==> rows[ids[i]].createdAt <= rows[id].createdAt)
  }

  lemma {:induction false} OldestExists(rows: Table, pool: set<EventId>) returns (oldest: EventId)
    requires (exists id :: id in pool) && forall id :: id in pool ==> id in rows
    ensures oldest in pool && forall id :: id in pool ==> rows[oldest].createdAt <= rows[id].createdAt
    decreases |pool|
  {
    oldest :| oldest in pool;
    if id :| id in pool && rows[id].createdAt < rows[oldest].createdAt {
      var rest := pool - {oldest};
      assert id in rest;
      oldest := OldestExists(rows, rest);
    }
  }

  /** Some listing of the oldest candidates always exists. */
  lemma {:induction false} OldestOf(rows: Table, pool: set<EventId>, limit: nat) returns (ids: seq<EventId>)
    requires forall id :: id in pool ==> id in rows
    ensures |ids| <= limit && forall i :: 0 <= i < |ids| ==> ids[i] in pool && ids[i] in rows
    ensures forall i, j :: 0 <= i < j < |ids| ==>
              ids[i] != ids[j] && rows[ids[i]].createdAt <= rows[ids[j]].createdAt
    ensures forall id :: id in pool && id !in ids ==>
              |ids| == limit && forall i :: 0 <= i < |ids| ==> rows[ids[i]].createdAt <= rows[id].createdAt
    decreases limit
  {
    if limit > 0 && exists id :: id in pool {
      var first := OldestExists(rows, pool);
      var rest := OldestOf(rows, pool - {first}, limit - 1);
      ids := [first] + rest;
      forall id | id in pool && id !in ids
        ensures |ids| == limit && forall i :: 0 <= i < |ids| ==> rows[ids[i]].createdAt <= rows[id].createdAt
      {
        assert id in pool - {first} && id !in rest;
      }
    } else {
      ids := [];
    }
  }

  lemma ClaimExists(cfg: Config, rows: Table, locked: set<EventId>, now: int) returns (ids: seq<EventId>)
    ensures Claimable(cfg, rows, locked, now, ids)
  {
    ids := OldestOf(rows, (set id | id in rows && Candidate(cfg, rows, locked, now, id)), cfg.batchSize);
  }

  function EventOf(id: EventId, r: Row): Event {
    Event(id, r.msg, r.attempts)
  }

  /** The rows a claim scans into events. */
  function EventsOf(rows: Table, ids: seq<EventId>): (events: seq<Event>)
    requires forall i :: 0 <= i < |ids| ==> ids[i] in rows
    ensures |events| == |ids|
    ensures forall i :: 0 <= i < |ids| ==> events[i] == EventOf(ids[i], rows[ids[i]])
  {
    seq(|ids|, i requires 0 <= i < |ids| => EventOf(ids[i], rows[ids[i]]))
  }

  /** SET clause of `markSent` (polling). */
  function AfterSent(r: Row, ref: SentRef, now: int): Row {
    r.(status := Sent, sentAt := Some(now), attempts := r.attempts + 1,
       partition := Some(ref.partition), offset := Some(ref.offset), settledBy := Some(Poller))
  }

  /** SET clause of `markFailed`; the CASE reads the old `attempts`. */
  function AfterFailed(r: Row, now: int, maxAttempts: nat): Row {
    r.(attempts := r.attempts + 1, lastAttemptAt := Some(now),
       status := if r.attempts + 1 >= maxAttempts then Dead else Failed)
  }

  /** SET clause of the CDC `MarkSent`. */
  function AfterCdc(r: Row, ref: SentRef, now: int): Row {
    r.(status := Sent, sentAt := Some(now), attempts := r.attempts + 1,
       partition := Some(ref.partition), offset := Some(ref.offset), settledBy := Some(CdcUpdater))
  }

  /** The CDC statement, with its guard. */
  function CdcMark(rows: Table, ref: SentRef, now: int): Table {
    if ref.event in rows && rows[ref.event].Live()
    then rows[ref.event := AfterCdc(rows[ref.event], ref, now)]
    else rows
  }

  /** The reference joined to a row by `FROM unnest(...)`, if any. */
  function RefFor(sent: seq<SentRef>, id: EventId): Option<SentRef> {
    if sent == [] then None
    else if sent[|sent| - 1].event == id then Some(sent[|sent| - 1])
    else RefFor(sent[..|sent| - 1], id)
  }

  /** The bulk UPDATE of `markSent`. It has no status guard. */
  function MarkSentRows(rows: Table, sent: seq<SentRef>, now: int): Table {
    map id | id in rows ::
      if RefFor(sent, id).Some? then AfterSent(rows[id], RefFor(sent, id).value, now) else rows[id]
  }

  /** The bulk UPDATE of `markFailed`. It has no status guard. */
  function MarkFailedRows(rows: Table, failed: seq<EventId>, now: int, maxAttempts: nat): Table {
    map id | id in rows :: if id in failed then AfterFailed(rows[id], now, maxAttempts) else rows[id]
  }

  /** Both updates of one batch. */
  function CommitRows(rows: Table, sent: seq<SentRef>, failed: seq<EventId>, now: int, maxAttempts: nat): Table {
    MarkFailedRows(MarkSentRows(rows, sent, now), failed, now, maxAttempts)
  }

  /** Columns `attempts` and `kafka_partition` are SMALLINT: the statement errors past 32767. */
  const SMALLINT_MAX: int := 32767

  predicate StorableRow(r: Row) {
    r.attempts <= SMALLINT_MAX && (r.partition.Some? ==> r.partition.value <= SMALLINT_MAX)
  }

  /** The bulk updates error if a row they would write does not fit. */
  predicate SentFits(rows: Table, sent: seq<SentRef>, now: int) {
    forall id :: id in rows && RefFor(sent, id).Some? ==> StorableRow(AfterSent(rows[id], RefFor(sent, id).value, now))
  }

  predicate FailedFits(rows: Table, failed: seq<EventId>, now: int, maxAttempts: nat) {
    forall id :: id in rows && id in failed ==> StorableRow(AfterFailed(rows[id], now, maxAttempts))
  }

  predicate OutcomeFits(rows: Table, sent: seq<SentRef>, failed: seq<EventId>, now: int, maxAttempts: nat) {
    SentFits(rows, sent, now) && FailedFits(MarkSentRows(rows, sent, now), failed, now, maxAttempts)
  }

  /** The CDC statement errors only if the row it would write does not fit. */
  predicate MarkFits(rows: Table, ref: SentRef, now: int) {
    ref.event in rows && rows[ref.event].Live() ==> StorableRow(AfterCdc(rows[ref.event], ref, now))
  }

  /** What the broker answered to one publish. A lost acknowledgement is an error to the
      caller although the record is in the log. */
  datatype Reply = Acked(partition: int, offset: int) | LostAck(partition: int, offset: int) | NotStored

  /** The publish loop's `sent` after the first `|replies|` events. */
  function SentRefs(events: seq<Event>, replies: seq<Reply>): (sent: seq<SentRef>)
    requires |replies| <= |events|
  {
    if replies == [] then []
    else
      var n := |replies| - 1;
      SentRefs(events, replies[..n])
      + if replies[n].Acked? then [SentRef(events[n].id, replies[n].partition, replies[n].offset)] else []
  }

  /** The publish loop's `failIDs`. */
  function FailedIds(events: seq<Event>, replies: seq<Reply>): (failed: seq<EventId>)
    requires |replies| <= |events|
  {
    if replies == [] then []
    else
      var n := |replies| - 1;
      FailedIds(events, replies[..n]) + if replies[n].Acked? then [] else [events[n].id]
  }

  function Ids(events: seq<Event>): (ids: set<EventId>)
    ensures forall i :: 0 <= i < |events| ==> events[i].id in ids
    ensures forall id :: id in ids ==> exists i :: 0 <= i < |events| && events[i].id == id
  {
    set e | e in events :: e.id
  }

  /** A locked row is still what the claim read: live, same message, same attempts, and
      eligible at the transaction's frozen `now`. */
  ghost predicate Held(cfg: Config, rows: Table, now: int, e: Event) {
    && e.id in rows
    && rows[e.id].Live()
    && rows[e.id].msg == e.msg
    && rows[e.id].attempts == e.attempts
    && Eligible(cfg, rows[e.id], now)
  }

  /** The claimed rows are still what the claim read. */
  ghost predicate AllHeld(cfg: Config, rows: Table, now: int, events: seq<Event>) {
    forall i :: 0 <= i < |events| ==> Held(cfg, rows, now, events[i])
  }

  ghost predicate DistinctIds(events: seq<Event>) {
    forall i, j :: 0 <= i < j < |events| ==> events[i].id != events[j].id
  }

  /** Event `i` is joined by exactly the reference its own reply produced. */
  lemma {:induction false} SplitAt(events: seq<Event>, replies: seq<Reply>, i: nat)
    requires i < |replies| <= |events| && DistinctIds(events)
    ensures replies[i].Acked? ==>
              RefFor(SentRefs(events, replies), events[i].id)
              == Some(SentRef(events[i].id, replies[i].partition, replies[i].offset))
    ensures !replies[i].Acked? ==> RefFor(SentRefs(events, replies), events[i].id) == None
    ensures events[i].id in FailedIds(events, replies) <==> !replies[i].Acked?
  {
    var n := |replies| - 1;
    var front := replies[..n];
    var sent := SentRefs(events, front);
    if i == n {
      SplitForeign(events, front, events[i].id);
    } else {
      SplitAt(events, front, i);
    }
    if replies[n].Acked? {
      var ref := SentRef(events[n].id, replies[n].partition, replies[n].offset);
      assert (sent + [ref])[..|sent|] == sent;
    } else {
      assert sent + [] == sent;
    }
  }

  /** Nothing is recorded about an event outside the processed prefix. */
  lemma {:induction false} SplitForeign(events: seq<Event>, replies: seq<Reply>, id: EventId)
    requires |replies| <= |events|
    requires forall i :: 0 <= i < |replies| ==> events[i].id != id
    ensures RefFor(SentRefs(events, replies), id) == None
    ensures id !in FailedIds(events, replies)
  {
    if replies != [] {
      var n := |replies| - 1;
      SplitForeign(events, replies[..n], id);
      var sent := SentRefs(events, replies[..n]);
      if replies[n].Acked? {
        var ref := SentRef(events[n].id, replies[n].partition, replies[n].offset);
        assert (sent + [ref])[..|sent|] == sent;
      } else {
        assert sent + [] == sent;
      }
    }
  }

  /** The row a batch leaves behind, written per event: the reference the two bulk updates
      are compared with. */
  function Outcome(r: Row, id: EventId, reply: Reply, now: int, maxAttempts: nat): Row {
    if reply.Acked? then AfterSent(r, SentRef(id, reply.partition, reply.offset), now)
    else AfterFailed(r, now, maxAttempts)
  }

  /** Each reply reaches the bulk updates as its own event's reference or failure, and nothing else does. */
  lemma SplitByEvent(events: seq<Event>, replies: seq<Reply>)
    requires |replies| == |events| && DistinctIds(events)
    ensures forall i :: 0 <= i < |events| ==>
              && (events[i].id in FailedIds(events, replies) <==> !replies[i].Acked?)
              && RefFor(SentRefs(events, replies), events[i].id)
                 == if replies[i].Acked? then Some(SentRef(events[i].id, replies[i].partition, replies[i].offset))
                    else None
    ensures forall id :: id !in Ids(events) ==>
              RefFor(SentRefs(events, replies), id) == None && id !in FailedIds(events, replies)
  {
    forall i | 0 <= i < |events|
      ensures replies[i].Acked? ==>
                RefFor(SentRefs(events, replies), events[i].id)
                == Some(SentRef(events[i].id, replies[i].partition, replies[i].offset))
      ensures !replies[i].Acked? ==> RefFor(SentRefs(events, replies), events[i].id) == None
      ensures events[i].id in FailedIds(events, replies) <==> !replies[i].Acked?
    {
      SplitAt(events, replies, i);
    }
    forall id | id !in Ids(events)
      ensures RefFor(SentRefs(events, replies), id) == None
      ensures id !in FailedIds(events, replies)
    {
      SplitForeign(events, replies, id);
    }
  }

  /** The two bulk updates together give every claimed row its own outcome and touch no other row. */
  lemma CommitOutcome(rows: Table, events: seq<Event>, replies: seq<Reply>, now: int, maxAttempts: nat)
    requires |replies| == |events| && DistinctIds(events)
    ensures var rows' := CommitRows(rows, SentRefs(events, replies), FailedIds(events, replies), now, maxAttempts);
            && rows'.Keys == rows.Keys
            && (forall i :: 0 <= i < |events| && events[i].id in rows ==>
                  rows'[events[i].id] == Outcome(rows[events[i].id], events[i].id, replies[i], now, maxAttempts))
            && (forall id :: id in rows && id !in Ids(events) ==> rows'[id] == rows[id])
  {
    SplitByEvent(events, replies);
  }

  /** What the two updates leave in each column of a claimed row: an acknowledged event is SENT now,
      at its own position; a failed one is stamped now, and parked when its budget is spent. */
  lemma CommitColumns(rows: Table, events: seq<Event>, replies: seq<Reply>, now: int, maxAttempts: nat, i: nat)
    requires |replies| == |events| && DistinctIds(events) && i < |events| && events[i].id in rows
    ensures var rows' := CommitRows(rows, SentRefs(events, replies), FailedIds(events, replies), now, maxAttempts);
            && events[i].id in rows'
            && var r, r' := rows[events[i].id], rows'[events[i].id];
               && r'.msg == r.msg && r'.createdAt == r.createdAt && r'.attempts == r.attempts + 1
               && match replies[i]
                  case Acked(partition, offset) =>
                    && r'.status == Sent && r'.sentAt == Some(now) && r'.settledBy == Some(Poller)
                    && r'.partition == Some(partition) && r'.offset == Some(offset)
                    && r'.lastAttemptAt == r.lastAttemptAt
                  case _ =>
                    && r'.status == (if r.attempts + 1 >= maxAttempts then Dead else Failed)
                    && r'.lastAttemptAt == Some(now)
                    && r'.sentAt == r.sentAt && r'.settledBy == r.settledBy
                    && r'.partition == r.partition && r'.offset == r.offset
  {
    CommitOutcome(rows, events, replies, now, maxAttempts);
  }

  /** The commit fits the columns exactly when every claimed row's own outcome does. */
  lemma OutcomeFitsExactly(rows: Table, events: seq<Event>, replies: seq<Reply>, now: int, maxAttempts: nat)
    requires |replies| == |events| && DistinctIds(events)
    ensures OutcomeFits(rows, SentRefs(events, replies), FailedIds(events, replies), now, maxAttempts)
            <==> forall i :: 0 <= i < |events| && events[i].id in rows ==>
                   StorableRow(Outcome(rows[events[i].id], events[i].id, replies[i], now, maxAttempts))
  {
    hide SentRefs;
    hide FailedIds;
    hide RefFor;
    hide StorableRow;
    var sent, failed := SentRefs(events, replies), FailedIds(events, replies);
    SplitByEvent(events, replies);
    if forall i :: 0 <= i < |events| && events[i].id in rows ==>
         StorableRow(Outcome(rows[events[i].id], events[i].id, replies[i], now, maxAttempts)) {
      forall id | id in rows && RefFor(sent, id).Some?
        ensures StorableRow(AfterSent(rows[id], RefFor(sent, id).value, now))
      {
        assert id in Ids(events);
      }
      var marked := MarkSentRows(rows, sent, now);
      forall id | id in marked && id in failed ensures StorableRow(AfterFailed(marked[id], now, maxAttempts)) {
        assert id in Ids(events);
      }
    }
    if OutcomeFits(rows, sent, failed, now, maxAttempts) {
      forall i | 0 <= i < |events| && events[i].id in rows
        ensures StorableRow(Outcome(rows[events[i].id], events[i].id, replies[i], now, maxAttempts))
      {
        var marked := MarkSentRows(rows, sent, now);
        assert !replies[i].Acked? ==> marked[events[i].id] == rows[events[i].id];
      }
    }
  }
}
