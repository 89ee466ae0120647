/** The relay's repository over PostgreSQL: a claim transaction that locks rows, updates them
    in place and commits or rolls back. Uncommitted row versions live in the transaction. */
module OutboxRepo {
  import opened Outbox

  /** The database as all sessions share it. */
  datatype Snapshot = Snapshot(rows: Table, locked: set<EventId>, clock: int)

  /** What other sessions do between two statements of ours: insert, claim, mark, commit, purge. */
  type Others = Snapshot -> Snapshot

  /** Row locks are all that binds them: rows we hold stay locked and as they are. Every run of the
      step system is of this kind (`PollRefinement.OthersAreAllowed`). */
  predicate Allowed(s: Snapshot, s': Snapshot, mine: set<EventId>) {
    && s.clock <= s'.clock
    && mine <= s'.locked
    && forall id :: id in mine && id in s.rows ==> id in s'.rows && s'.rows[id] == s.rows[id]
  }

  function Interfere(others: Others, s: Snapshot, mine: set<EventId>): (s': Snapshot)
    ensures mine <= s.locked ==> Allowed(s, s', mine)
  {
    if Allowed(s, others(s), mine) then others(s) else s
  }

  /** How the server may fail a commit: a statement errors, the commit is refused, or it takes
      effect but its reply is lost. */
  datatype Fault = NoFault | StatementFails | CommitRefused | ReplyLost {
    predicate LetsCommit() {
      NoFault? || ReplyLost?
    }
  }

  /** Committed rows, the rows locked by any open transaction, and the server clock. */
  class Database {
    var rows: Table
    var locked: set<EventId>
    var clock: int

    constructor ()
      ensures rows == map[] && locked == {} && clock == 0
    {
      rows, locked, clock := map[], {}, 0;
    }

    function Snap(): Snapshot
      reads this
    {
      Snapshot(rows, locked, clock)
    }

    /** The CDC relay's single-row UPDATE outside any batch. It waits for a held row lock, so
        it runs when the row is not locked. It commits by itself, so it may take effect and still
        report an error when its reply is lost. */
    method MarkSent(ref: SentRef, fault: Fault) returns (ok: bool)
      requires ref.event !in locked
      modifies this`rows
      ensures rows == if fault.LetsCommit() && MarkFits(old(rows), ref, clock) then CdcMark(old(rows), ref, clock)
                      else old(rows)
      ensures ok <==> fault.NoFault? && MarkFits(old(rows), ref, clock)
    {
      ok := fault.NoFault? && MarkFits(rows, ref, clock);
      if fault.LetsCommit() && MarkFits(rows, ref, clock) && ref.event in rows && rows[ref.event].Live() {
        rows := rows[ref.event := AfterCdc(rows[ref.event], ref, clock)];
      }
    }
  }

  method LetOthersRun(db: Database, mine: set<EventId>, others: Others)
    requires mine <= db.locked
    modifies db
    ensures db.Snap() == Interfere(others, old(db.Snap()), mine)
  {
    var s := Interfere(others, db.Snap(), mine);
    db.rows, db.locked, db.clock := s.rows, s.locked, s.clock;
  }

  /** What may happen while a worker publishes: other sessions run, or the server loses the
      worker's own session, and with it the locks, without the worker noticing. */
  method WhilePublishing(tx: PgTx, severed: bool, others: Others)
    requires tx.Valid() && tx.open && tx.writes == map[]
    modifies tx, tx.db
    ensures tx.Valid() && tx.writes == map[] && tx.open == !severed
    ensures tx.locks == if severed then {} else old(tx.locks)
    ensures tx.db.Snap() == if severed then Interfere(others, Unlocked(old(tx.db.Snap()), old(tx.locks)), {})
                            else Interfere(others, old(tx.db.Snap()), old(tx.locks))
  {
    if severed {
      tx.Rollback();
    }
    ghost var before := tx.db.Snap();
    LetOthersRun(tx.db, tx.locks, others);
    forall id | id in tx.locks ensures id in tx.db.rows {
      assert id in before.rows;
    }
  }

  function Unlocked(s: Snapshot, ids: set<EventId>): Snapshot {
    s.(locked := s.locked - ids)
  }

  /** The server's evaluation of the claim query: oldest candidate first, up to the LIMIT. */
  method OldestFirst(cfg: Config, rows: Table, locked: set<EventId>, now: int) returns (ids: seq<EventId>)
    ensures Claimable(cfg, rows, locked, now, ids)
  {
    ids := [];
    var pool := set id | id in rows && Candidate(cfg, rows, locked, now, id);
    while |ids| < cfg.batchSize && exists id :: id in pool
      invariant |ids| <= cfg.batchSize
      invariant forall i :: 0 <= i < |ids| ==> Candidate(cfg, rows, locked, now, ids[i]) && ids[i] !in pool
      invariant forall id :: Candidate(cfg, rows, locked, now, id) ==> id in pool || id in ids
      invariant forall id :: id in pool ==> Candidate(cfg, rows, locked, now, id)
      invariant forall i, j :: 0 <= i < j < |ids| ==>
                  ids[i] != ids[j] && rows[ids[i]].createdAt <= rows[ids[j]].createdAt
      invariant forall i, id :: 0 <= i < |ids| && id in pool ==> rows[ids[i]].createdAt <= rows[id].createdAt
      decreases |pool|
    {
      ghost var _ := OldestExists(rows, pool);
      var oldest :| oldest in pool && forall id :: id in pool ==> rows[oldest].createdAt <= rows[id].createdAt;
      ids, pool := ids + [oldest], pool - {oldest};
    }
  }

  class PgTx {
    const db: Database
    const now: int
    var locks: set<EventId>
    var writes: Table
    var open: bool

    ghost predicate Valid()
      reads this, db
    {
      && writes.Keys <= locks
      && (if open then locks <= db.locked && locks <= db.rows.Keys else locks == {})
    }

    /** What this transaction sees: its own row versions over the committed ones. */
    function View(): Table
      reads this, db
    {
      db.rows + writes
    }

    /** BEGIN fixes `now()` for the whole transaction. */
    constructor Begin(db: Database)
      ensures this.db == db && now == db.clock && open && Valid()
      ensures locks == {} && writes == map[]
    {
      this.db, now := db, db.clock;
      locks, writes, open := {}, map[], true;
    }

    /** SELECT ... ORDER BY created_at FOR UPDATE SKIP LOCKED LIMIT. */
    method SelectForUpdate(cfg: Config) returns (ids: seq<EventId>)
      requires Valid() && open && locks == {}
      modifies this`locks, db`locked
      ensures Valid() && Claimable(cfg, db.rows, old(db.locked), now, ids)
      ensures locks == (set id | id in ids) && locks !! old(db.locked) && db.locked == old(db.locked) + locks
    {
      ids := OldestFirst(cfg, db.rows, db.locked, now);
      locks := set id | id in ids;
      db.locked := db.locked + locks;
    }

    /** UPDATE ... FROM (SELECT unnest ...) WHERE event_id = v.id. No status guard: the caller
        must own the rows' locks. A statement on a lost session errors. */
    method UpdateSent(refs: seq<SentRef>) returns (ok: bool)
      requires Valid()
      requires open ==> forall id :: RefFor(refs, id).Some? ==> id in locks
      modifies this`writes
      ensures Valid()
      ensures ok <==> open && SentFits(old(View()), refs, now)
      ensures ok ==> View() == MarkSentRows(old(View()), refs, now)
      ensures !ok ==> writes == old(writes)
    {
      var seen := View();
      var changed := map id | id in locks && RefFor(refs, id).Some? :: AfterSent(seen[id], RefFor(refs, id).value, now);
      ok := open && forall id :: id in changed ==> StorableRow(changed[id]);
      if ok {
        writes := writes + changed;
        assert View() == MarkSentRows(seen, refs, now);
      }
    }

    /** UPDATE ... WHERE event_id = ANY(ids). No status guard either. */
    method UpdateFailed(ids: seq<EventId>, maxAttempts: nat) returns (ok: bool)
      requires Valid()
      requires open ==> forall id :: id in ids ==> id in locks
      modifies this`writes
      ensures Valid()
      ensures ok <==> open && FailedFits(old(View()), ids, now, maxAttempts)
      ensures ok ==> View() == MarkFailedRows(old(View()), ids, now, maxAttempts)
      ensures !ok ==> writes == old(writes)
    {
      var seen := View();
      var changed := map id | id in locks && id in ids :: AfterFailed(seen[id], now, maxAttempts);
      ok := open && forall id :: id in changed ==> StorableRow(changed[id]);
      if ok {
        writes := writes + changed;
        forall id | id in seen ensures View()[id] == MarkFailedRows(seen, ids, now, maxAttempts)[id] {
        }
        assert View() == MarkFailedRows(seen, ids, now, maxAttempts);
      }
    }

    /** COMMIT installs the row versions and releases the locks in one step, unless it is refused
        or the session is gone. */
    method Commit(fault: Fault) returns (ok: bool, ghost applied: bool)
      requires Valid()
      modifies this, db
      ensures Valid() && !open
      ensures applied == (old(open) && !fault.CommitRefused?) && ok == (applied && !fault.ReplyLost?)
      ensures db.rows == if applied then old(View()) else old(db.rows)
      ensures db.locked == old(db.locked) - old(locks) && db.clock == old(db.clock)
    {
      applied := open && !fault.CommitRefused?;
      ok := open && !fault.CommitRefused? && !fault.ReplyLost?;
      if open && !fault.CommitRefused? {
        db.rows := View();
      }
      db.locked := db.locked - locks;
      locks, writes, open := {}, map[], false;
    }

    /** ROLLBACK drops the row versions; a no-op once the transaction has ended. The server does
        the same when it loses the session. */
    method Rollback()
      requires Valid()
      modifies this, db`locked
      ensures Valid() && !open && locks == {} && writes == map[]
      ensures db.locked == old(db.locked) - old(locks)
    {
      db.locked := db.locked - locks;
      locks, writes, open := {}, map[], false;
    }
  }

  function Zip(ids: seq<EventId>, parts: seq<int>, offs: seq<int>): seq<SentRef>
    requires |ids| == |parts| == |offs|
  {
    seq(|ids|, i requires 0 <= i < |ids| => SentRef(ids[i], parts[i], offs[i]))
  }

  /** `markSent`: builds the three arrays and runs the bulk UPDATE. */
  method MarkSent(tx: PgTx, sent: seq<SentRef>) returns (ok: bool)
    requires tx.Valid()
    requires tx.open ==> forall id :: RefFor(sent, id).Some? ==> id in tx.locks
    modifies tx`writes
    ensures tx.Valid()
    ensures ok <==> (tx.open || |sent| == 0) && SentFits(old(tx.View()), sent, tx.now)
    ensures ok ==> tx.View() == MarkSentRows(old(tx.View()), sent, tx.now)
    ensures !ok ==> tx.writes == old(tx.writes)
  {
    if |sent| == 0 {
      ok := true;
      assert tx.View() == MarkSentRows(tx.View(), sent, tx.now);
      return;
    }
    var ids, parts, offs := [], [], [];
    for i := 0 to |sent|
      invariant |ids| == |parts| == |offs| == i
      invariant forall k :: 0 <= k < i ==> SentRef(ids[k], parts[k], offs[k]) == sent[k]
    {
      ids, parts, offs := ids + [sent[i].event], parts + [sent[i].partition], offs + [sent[i].offset];
    }
    assert Zip(ids, parts, offs) == sent;
    ok := tx.UpdateSent(Zip(ids, parts, offs));
  }

  /** `markFailed`. */
  method MarkFailed(tx: PgTx, ids: seq<EventId>, maxAttempts: nat) returns (ok: bool)
    requires tx.Valid()
    requires tx.open ==> forall id :: id in ids ==> id in tx.locks
    modifies tx`writes
    ensures tx.Valid()
    ensures ok <==> (tx.open || |ids| == 0) && FailedFits(old(tx.View()), ids, tx.now, maxAttempts)
    ensures ok ==> tx.View() == MarkFailedRows(old(tx.View()), ids, tx.now, maxAttempts)
    ensures !ok ==> tx.writes == old(tx.writes)
  {
    if |ids| == 0 {
      ok := true;
      assert tx.View() == MarkFailedRows(tx.View(), ids, tx.now, maxAttempts);
      return;
    }
    ok := tx.UpdateFailed(ids, maxAttempts);
  }

  /** `pgBatch`: the claimed events and the transaction that holds their locks. */
  class PgBatch {
    const tx: PgTx
    const events: seq<Event>

    constructor (tx: PgTx, events: seq<Event>)
      ensures this.tx == tx && this.events == events
    {
      this.tx, this.events := tx, events;
    }

    /** Records the outcome and commits it atomically. The commit takes effect exactly when the
        session lives, nothing refuses it and every written row fits; then both updates are in
        the table, and otherwise the table is untouched. Success is reported exactly when the
        commit took effect and its reply arrived. */
    method Commit(sent: seq<SentRef>, failedIds: seq<EventId>, maxAttempts: nat, fault: Fault)
      returns (ok: bool, ghost applied: bool)
      requires tx.Valid() && tx.writes == map[]
      requires tx.open ==> forall id :: RefFor(sent, id).Some? || id in failedIds ==> id in tx.locks
      modifies tx, tx.db
      ensures tx.Valid()
      ensures tx.db.rows == if applied then CommitRows(old(tx.db.rows), sent, failedIds, tx.now, maxAttempts)
                            else old(tx.db.rows)
      ensures applied <==> old(tx.open) && fault.LetsCommit()
                           && OutcomeFits(old(tx.db.rows), sent, failedIds, tx.now, maxAttempts)
      ensures ok <==> applied && !fault.ReplyLost?
      ensures tx.db.clock == old(tx.db.clock)
      ensures if tx.open then !applied && tx.locks == old(tx.locks) && tx.db.locked == old(tx.db.locked)
              else tx.db.locked == old(tx.db.locked) - old(tx.locks)
    {
      applied := false;
      assert tx.View() == tx.db.rows;
      ok := MarkSent(tx, sent);
      if !ok || fault.StatementFails? {
        ok := false;
        return;
      }
      ok := MarkFailed(tx, failedIds, maxAttempts);
      if !ok {
        return;
      }
      ok, applied := tx.Commit(fault);
    }

    method Rollback()
      requires tx.Valid()
      modifies tx, tx.db`locked
      ensures tx.Valid() && !tx.open
      ensures tx.db.locked == old(tx.db.locked) - old(tx.locks)
    {
      tx.Rollback();
    }
  }

  /** `fetchPending`: locks the oldest eligible rows and scans them into events. */
  method FetchPending(tx: PgTx, cfg: Config) returns (events: seq<Event>)
    requires tx.Valid() && tx.open && tx.locks == {}
    modifies tx`locks, tx.db`locked
    ensures tx.Valid() && tx.locks == Ids(events)
    ensures tx.locks !! old(tx.db.locked) && tx.db.locked == old(tx.db.locked) + tx.locks
    ensures ClaimedFrom(cfg, Snapshot(old(tx.db.rows), old(tx.db.locked), tx.now), events)
  {
    var ids := tx.SelectForUpdate(cfg);
    events := [];
    for i := 0 to |ids|
      invariant |events| == i
      invariant forall k :: 0 <= k < i ==> events[k] == EventOf(ids[k], tx.db.rows[ids[k]])
    {
      events := events + [EventOf(ids[i], tx.db.rows[ids[i]])];
    }
    assert ClaimedIds(events) == ids;
    forall id ensures id in tx.locks <==> id in Ids(events) {
      if id in ids {
        var i :| 0 <= i < |ids| && ids[i] == id;
        assert events[i].id == id;
      }
    }
  }

  /** The events are the oldest eligible unlocked rows of the snapshot, as its table has them. */
  ghost predicate ClaimedFrom(cfg: Config, s: Snapshot, events: seq<Event>) {
    && Claimable(cfg, s.rows, s.locked, s.clock, ClaimedIds(events))
    && DistinctIds(events)
    && AllHeld(cfg, s.rows, s.clock, events)
  }

  function ClaimedIds(events: seq<Event>): seq<EventId> {
    seq(|events|, i requires 0 <= i < |events| => events[i].id)
  }

  /** `ClaimBatch`: a fetch that fails, even after its query has locked rows, rolls its
      transaction back, and no lock is left. */
  method ClaimBatch(db: Database, cfg: Config, beginFails: bool, fetchFails: bool) returns (batch: PgBatch?)
    modifies db`locked
    ensures batch == null <==> beginFails || fetchFails
    ensures batch == null ==> db.locked == old(db.locked)
    ensures batch != null ==>
              && fresh(batch) && fresh(batch.tx) && batch.tx.db == db && batch.tx.Valid() && batch.tx.open
              && batch.tx.writes == map[] && batch.tx.now == db.clock == old(db.clock)
              && batch.tx.locks == Ids(batch.events) && batch.tx.locks !! old(db.locked)
              && db.locked == old(db.locked) + batch.tx.locks
              && ClaimedFrom(cfg, old(db.Snap()), batch.events) && |batch.events| <= cfg.batchSize
  {
    if beginFails {
      return null;
    }
    var tx := new PgTx.Begin(db);
    var events := FetchPending(tx, cfg);
    if fetchFails {
      assert old(db.locked) + tx.locks - tx.locks == old(db.locked);
      tx.Rollback();
      return null;
    }
    batch := new PgBatch(tx, events);
  }
}
