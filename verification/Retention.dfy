/** The retention janitor's purge of SENT outbox rows: bounded batches, each in its own
    transaction, while the relay and other janitors keep running. */
module Retention {
  import opened Wrappers
  import opened Outbox
  import opened OutboxRepo
  import RelaySystem

  const DAY: nat := 86_400_000_000_000

  /** The purge function's WHERE clause: SENT, with a known sent_at before the cutoff. */
  predicate Old(r: Row, cutoff: int) {
    r.status.Sent? && r.sentAt.Some? && r.sentAt.value < cutoff
  }

  function OldIds(rows: Table, cutoff: int): set<EventId> {
    set id | id in rows && Old(rows[id], cutoff)
  }

  lemma OldExactly(rows: Table, cutoff: int)
    ensures OldIds(rows, cutoff)
            == set id | id in rows && rows[id].status.Sent? && rows[id].sentAt.Some?
                        && rows[id].sentAt.value < cutoff
  {
    forall id ensures id in OldIds(rows, cutoff) <==> id in rows && Old(rows[id], cutoff) {
    }
  }

  /** The environment of one batch: rows of its selection that another janitor deletes first,
      whether the run's context is over, which call fails, and what other sessions do afterwards. */
  datatype World = World(stolen: set<EventId>, cancelled: bool, callFails: bool, fault: Fault, after: Others)

  /** One batch as it happened: the database it started from, its cutoff, its selection, what
      others stole of it, and whether its own delete is durable. */
  datatype Batch = Batch(start: Snapshot, cutoff: int, selected: set<EventId>, stolen: set<EventId>, applied: bool)
  {
    /** Rows old enough when the batch selected. */
    function Aged(): set<EventId> {
      OldIds(start.rows, cutoff)
    }

    function Deleted(): set<EventId> {
      selected - stolen
    }

    /** Rows this batch removed for good. */
    function Removed(): set<EventId> {
      if applied then Deleted() else {}
    }

    function Finish(): Snapshot {
      start.(rows := start.rows - (if applied then selected else stolen))
    }

    predicate Sound(batchSize: nat) {
      && stolen <= selected <= Aged()
      && |selected| == if |Aged()| < batchSize then |Aged()| else batchSize
    }
  }

  /** Any `limit` rows of the old ones: the function has no ORDER BY. */
  method SelectBatch(aged: set<EventId>, limit: nat) returns (selected: set<EventId>)
    ensures selected <= aged && |selected| == if |aged| < limit then |aged| else limit
  {
    selected := {};
    var rest := aged;
    while |selected| < limit && exists id :: id in rest
      invariant selected !! rest && selected + rest == aged && |selected| <= limit
      invariant |selected| + |rest| == |aged|
      decreases |rest|
    {
      var id :| id in rest;
      selected, rest := selected + {id}, rest - {id};
    }
    if !(exists id :: id in rest) {
      assert rest == {};
    }
  }

  lemma RemoveTwice(rows: Table, stolen: set<EventId>, selected: set<EventId>)
    requires stolen <= selected
    ensures (rows - stolen) - (selected - stolen) == rows - selected
    ensures rows - {} == rows
  {
  }

  /** Between batches other sessions run and time passes, within the run's budget: no cutoff of
      this run exceeds `lastCutoff`, and no row becomes SENT with a stamp below it. */
  predicate Ages(s: Snapshot, s': Snapshot, days: nat, lastCutoff: int) {
    && s.clock <= s'.clock && s'.clock - days * DAY <= lastCutoff
    && OldIds(s'.rows, lastCutoff) <= OldIds(s.rows, lastCutoff)
  }

  function Aging(w: World, s: Snapshot, days: nat, lastCutoff: int): (s': Snapshot)
    ensures s.clock - days * DAY <= lastCutoff ==> Ages(s, s', days, lastCutoff)
  {
    if Ages(s, w.after(s), days, lastCutoff) then w.after(s) else s
  }

  class Retention {
    const db: Database
    const batchSize: nat
    const days: nat

    constructor (db: Database, days: nat, batchSize: nat)
      ensures this.db == db && this.days == days && this.batchSize == batchSize
    {
      this.db, this.days, this.batchSize := db, days, batchSize;
    }

    /** The purge function accepts its arguments and the call reaches it. */
    predicate Runs(w: World) {
      !w.callFails && days >= 1 && batchSize >= 1
    }

    predicate Succeeds(w: World) {
      Runs(w) && w.fault.NoFault?
    }

    /** Exactly what one batch does. */
    predicate BatchOk(w: World, b: Batch) {
      && b.cutoff == b.start.clock - days * DAY
      && b.Sound(batchSize)
      && b.stolen == (if Runs(w) then w.stolen * b.selected else {})
      && (b.applied <==> Runs(w) && w.fault.LetsCommit())
    }

    method LetOthersRun(w: World, lastCutoff: int)
      modifies db
      ensures db.Snap() == Aging(w, old(db.Snap()), days, lastCutoff)
    {
      var s := Aging(w, db.Snap(), days, lastCutoff);
      db.rows, db.locked, db.clock := s.rows, s.locked, s.clock;
    }

    /** `purgeBatch`: one call of the purge function in its own transaction. It succeeds exactly
        when no call fails, and then reports the rows it deleted. */
    method PurgeBatch(w: World) returns (n: nat, ok: bool, ghost b: Batch)
      modifies db`rows
      ensures BatchOk(w, b) && b.start == old(db.Snap()) && db.Snap() == b.Finish()
      ensures ok == Succeeds(w) && n == if ok then |b.Deleted()| else 0
      ensures ok <==> !w.callFails && days >= 1 && batchSize >= 1 && w.fault == NoFault
    {
      hide OldIds;
      ghost var start := db.Snap();
      var cutoff := db.clock - days * DAY;
      var selected := SelectBatch(OldIds(db.rows, cutoff), batchSize);
      if w.callFails || days < 1 || batchSize < 1 {
        b := Batch(start, cutoff, selected, {}, false);
        RemoveTwice(start.rows, {}, {});
        return 0, false, b;
      }
      var stolen := w.stolen * selected;
      var deleted := selected - stolen;
      b := Batch(start, cutoff, selected, stolen, w.fault.LetsCommit());
      db.rows := db.rows - stolen;
      if w.fault.StatementFails? || w.fault.CommitRefused? {
        return 0, false, b;
      }
      RemoveTwice(start.rows, stolen, selected);
      db.rows := db.rows - deleted;
      if w.fault.ReplyLost? {
        return 0, false, b;
      }
      return |deleted|, true, b;
    }

    /** A batch in row fields: it selects as many rows as there are, up to the batch size, of those
        that are SENT with a known stamp older than the retention, and deletes exactly its selection,
        unless the call, its arguments, the statement or the commit fails. */
    lemma BatchInFields(w: World, b: Batch)
      requires BatchOk(w, b)
      ensures var cutoff, rows := b.start.clock - days * 86_400_000_000_000, b.start.rows;
              var qualify := set id | id in rows && rows[id].status.Sent? && rows[id].sentAt.Some?
                                      && rows[id].sentAt.value < cutoff;
              && b.cutoff == cutoff && b.selected <= qualify
              && |b.selected| == (if |qualify| < batchSize then |qualify| else batchSize)
              && b.Finish().clock == b.start.clock && b.Finish().locked == b.start.locked
              && b.Finish().rows == rows - (if w.callFails || days < 1 || batchSize < 1 then {}
                                            else if w.fault.NoFault? || w.fault.ReplyLost? then b.selected
                                            else b.selected * w.stolen)
      ensures Succeeds(w) ==> b.Deleted() == b.selected - w.stolen
    {
      OldExactly(b.start.rows, b.cutoff);
      assert b.selected * w.stolen == w.stolen * b.selected;
    }

    /** A batch that came back full, so that the loop goes on. */
    predicate Full(w: World, b: Batch) {
      Succeeds(w) && |b.Deleted()| >= batchSize
    }

    function NextStart(world: nat -> World, batches: seq<Batch>, start: Snapshot, lastCutoff: int): Snapshot {
      if batches == [] then start
      else Aging(world(|batches| - 1), batches[|batches| - 1].Finish(), days, lastCutoff)
    }

    /** The batches of one run: full ones, one after the other, and the one that ended it. */
    predicate BatchesOk(world: nat -> World, batches: seq<Batch>, start: Snapshot, lastCutoff: int)
      decreases |batches|
    {
      batches == [] ||
      var n := |batches| - 1;
      && BatchesOk(world, batches[..n], start, lastCutoff)
      && (n > 0 ==> Full(world(n - 1), batches[n - 1]))
      && !world(n).cancelled
      && BatchOk(world(n), batches[n])
      && batches[n].start == NextStart(world, batches[..n], start, lastCutoff)
    }

    lemma BatchesExtend(world: nat -> World, batches: seq<Batch>, b: Batch, start: Snapshot, lastCutoff: int)
      requires BatchesOk(world, batches, start, lastCutoff)
      requires batches != [] ==> Full(world(|batches| - 1), batches[|batches| - 1])
      requires !world(|batches|).cancelled && BatchOk(world(|batches|), b)
      requires b.start == NextStart(world, batches, start, lastCutoff)
      ensures BatchesOk(world, batches + [b], start, lastCutoff)
    {
      assert (batches + [b])[..|batches|] == batches;
    }

    /** The rows a run removed were old when it began, each is counted once, and none is back. */
    lemma {:induction false} GoneForGood(world: nat -> World, batches: seq<Batch>, start: Snapshot, lastCutoff: int)
      requires BatchesOk(world, batches, start, lastCutoff) && start.clock - days * DAY <= lastCutoff
      ensures RemovedBy(batches) <= OldIds(start.rows, lastCutoff) && |RemovedBy(batches)| == Count(batches)
      ensures RemovedBy(batches) !! OldIds(Finish(batches, start).rows, lastCutoff)
      ensures OldIds(Finish(batches, start).rows, lastCutoff) <= OldIds(start.rows, lastCutoff)
      ensures Finish(batches, start).clock - days * DAY <= lastCutoff
      decreases |batches|
    {
      if batches != [] {
        var n := |batches| - 1;
        GoneForGood(world, batches[..n], start, lastCutoff);
        PurgedRows(batches[n], batchSize, lastCutoff);
      }
    }

    /** How a run ends: at the first cancellation, failed or short batch. The total counts the
        rows its batches removed, except those of a last batch whose reply was lost. After a nil
        return nothing older than the last cutoff is left exactly when the last selection was not
        cut by the batch size; a short count shows that only if no other janitor deleted part of
        the selection. */
    ghost predicate Ended(world: nat -> World, batches: seq<Batch>, start: Snapshot, now: Snapshot, lastCutoff: int,
                          total: nat, ok: bool)
    {
      && BatchesOk(world, batches, start, lastCutoff)
      && if batches == [] || Full(world(|batches| - 1), batches[|batches| - 1]) then
           && world(|batches|).cancelled && !ok
           && now == NextStart(world, batches, start, lastCutoff) && total == Count(batches)
         else
           var w, last := world(|batches| - 1), batches[|batches| - 1];
           && ok == Succeeds(w)
           && now == last.Finish()
           && total + (if ok then 0 else |last.Removed()|) == Count(batches)
           && (ok ==> Drained(last, batchSize, now.rows))
    }

    /** `purge`: batches until one comes back short. It ends although rows keep ageing: every
        full batch shrinks the rows below the run's largest possible cutoff. `gone` are the rows
        its batches removed: they were old when it began, they are gone when it ends, and the
        total counts each of them once (`Ended`). */
    method Purge(world: nat -> World, lastCutoff: int)
      returns (total: nat, ok: bool, ghost gone: set<EventId>, ghost batches: seq<Batch>)
      requires db.clock - days * DAY <= lastCutoff
      modifies db
      ensures Ended(world, batches, old(db.Snap()), db.Snap(), lastCutoff, total, ok)
      ensures gone == RemovedBy(batches) && |gone| == Count(batches)
      ensures gone <= OldIds(old(db.rows), lastCutoff) && gone !! OldIds(db.rows, lastCutoff)
    {
      hide BatchesOk;
      hide BatchOk;
      hide Ended;
      hide Going;
      hide OldIds;
      total, gone, batches := 0, {}, [];
      EmptyRun(world, db.Snap(), lastCutoff);
      var i := 0;
      while true
        invariant |batches| == i && Going(world, batches, old(db.Snap()), db.Snap(), lastCutoff, total)
        decreases |OldIds(db.rows, lastCutoff)|
      {
        if world(i).cancelled {
          EndCancelled(world, batches, old(db.Snap()), db.Snap(), lastCutoff, total);
          gone, ok := RemovedBy(batches), false;
          return;
        }
        var n;
        ghost var b;
        n, ok, b := PurgeBatch(world(i));
        OneMoreBatch(world, batches, b, old(db.Snap()), lastCutoff, total, n, ok);
        batches, total := batches + [b], total + n;
        if !ok || n < batchSize {
          gone := RemovedBy(batches);
          return;
        }
        LetOthersRun(world(i), lastCutoff);
        GoOn(world, batches, old(db.Snap()), db.Snap(), lastCutoff, total);
        i := i + 1;
      }
    }

    /** Between two batches of a run that goes on. */
    ghost predicate Going(world: nat -> World, batches: seq<Batch>, start: Snapshot, now: Snapshot, lastCutoff: int,
                          total: nat)
    {
      && BatchesOk(world, batches, start, lastCutoff)
      && (batches != [] ==> Full(world(|batches| - 1), batches[|batches| - 1]))
      && now == NextStart(world, batches, start, lastCutoff) && now.clock - days * DAY <= lastCutoff
      && start.clock - days * DAY <= lastCutoff
      && total == Count(batches)
    }

    lemma EmptyRun(world: nat -> World, start: Snapshot, lastCutoff: int)
      requires start.clock - days * DAY <= lastCutoff
      ensures Going(world, [], start, start, lastCutoff, 0)
    {
    }

    lemma EndCancelled(world: nat -> World, batches: seq<Batch>, start: Snapshot, now: Snapshot, lastCutoff: int,
                       total: nat)
      requires Going(world, batches, start, now, lastCutoff, total) && world(|batches|).cancelled
      ensures Ended(world, batches, start, now, lastCutoff, total, false)
      ensures |RemovedBy(batches)| == Count(batches) && RemovedBy(batches) <= OldIds(start.rows, lastCutoff)
      ensures RemovedBy(batches) !! OldIds(now.rows, lastCutoff)
    {
      GoneForGood(world, batches, start, lastCutoff);
    }

    /** What one more batch means for the run: it has ended, or it goes on with fewer old rows. */
    lemma OneMoreBatch(world: nat -> World, batches: seq<Batch>, b: Batch, start: Snapshot, lastCutoff: int,
                       total: nat, n: nat, ok: bool)
      requires Going(world, batches, start, b.start, lastCutoff, total) && !world(|batches|).cancelled
      requires BatchOk(world(|batches|), b) && ok == Succeeds(world(|batches|)) && n == if ok then |b.Deleted()| else 0
      ensures BatchesOk(world, batches + [b], start, lastCutoff)
      ensures !ok || n < batchSize ==> Ended(world, batches + [b], start, b.Finish(), lastCutoff, total + n, ok)
      ensures ok && n >= batchSize ==>
                && Full(world(|batches|), b) && total + n == Count(batches + [b])
                && |OldIds(b.Finish().rows, lastCutoff)| < |OldIds(b.start.rows, lastCutoff)|
      ensures var removed := RemovedBy(batches + [b]);
              && |removed| == Count(batches + [b]) && removed <= OldIds(start.rows, lastCutoff)
              && removed !! OldIds(b.Finish().rows, lastCutoff)
      ensures b.Finish().clock == b.start.clock <= lastCutoff + days * DAY
    {
      BatchesExtend(world, batches, b, start, lastCutoff);
      BatchShrinks(world(|batches|), b, lastCutoff);
      Counted(batches, b);
      GoneForGood(world, batches + [b], start, lastCutoff);
      if ok && n < batchSize {
        LastBatch(world(|batches|), b);
      }
    }

    lemma GoOn(world: nat -> World, batches: seq<Batch>, start: Snapshot, now: Snapshot, lastCutoff: int, total: nat)
      requires BatchesOk(world, batches, start, lastCutoff) && batches != [] && total == Count(batches)
      requires Full(world(|batches| - 1), batches[|batches| - 1]) && start.clock - days * DAY <= lastCutoff
      requires now == Aging(world(|batches| - 1), batches[|batches| - 1].Finish(), days, lastCutoff)
      requires batches[|batches| - 1].Finish().clock - days * DAY <= lastCutoff
      ensures Going(world, batches, start, now, lastCutoff, total)
      ensures |OldIds(now.rows, lastCutoff)| <= |OldIds(batches[|batches| - 1].Finish().rows, lastCutoff)|
    {
      SubsetSize(OldIds(now.rows, lastCutoff), OldIds(batches[|batches| - 1].Finish().rows, lastCutoff));
    }

    lemma BatchShrinks(w: World, b: Batch, lastCutoff: int)
      requires BatchOk(w, b) && b.start.clock - days * DAY <= lastCutoff
      ensures Full(w, b) ==>
                b.applied && batchSize >= 1
                && |OldIds(b.Finish().rows, lastCutoff)| < |OldIds(b.start.rows, lastCutoff)|
      ensures Succeeds(w) ==> b.Removed() == b.Deleted()
      ensures b.Finish().clock == b.start.clock
    {
      PurgedRows(b, batchSize, lastCutoff);
    }

    /** When a run stops: each batch before the last one deleted its full size. A nil return follows
        the first that deleted fewer; an error follows a cancelled context after full batches only,
        or the first batch whose call, arguments or transaction failed. */
    lemma StopsExactly(world: nat -> World, batches: seq<Batch>, start: Snapshot, now: Snapshot, lastCutoff: int,
                       total: nat, ok: bool)
      requires Ended(world, batches, start, now, lastCutoff, total, ok)
      ensures forall k :: 0 <= k < |batches| - 1 ==> |batches[k].selected - batches[k].stolen| == batchSize
      ensures ok ==> batches != [] && |batches[|batches| - 1].selected - batches[|batches| - 1].stolen| < batchSize
      ensures !ok ==>
                || (world(|batches|).cancelled
                    && (batches != [] ==>
                          |batches[|batches| - 1].selected - batches[|batches| - 1].stolen| == batchSize))
                || (batches != []
                    && var w := world(|batches| - 1);
                       w.callFails || days < 1 || batchSize < 1 || w.fault != NoFault)
    {
      AllButLastFull(world, batches, start, lastCutoff);
      if batches != [] {
        var n := |batches| - 1;
        SubsetSize(batches[n].Deleted(), batches[n].selected);
      }
    }

    lemma {:induction false} AllButLastFull(world: nat -> World, batches: seq<Batch>, start: Snapshot, lastCutoff: int)
      requires BatchesOk(world, batches, start, lastCutoff)
      ensures forall k :: 0 <= k < |batches| - 1 ==>
                Full(world(k), batches[k]) && |batches[k].selected - batches[k].stolen| == batchSize
      decreases |batches|
    {
      hide BatchOk;
      hide Full;
      hide NextStart;
      if |batches| > 1 {
        var n := |batches| - 2;
        AllButLastFull(world, batches[..n + 1], start, lastCutoff);
        FullBatch(world(n), batches[n]);
      }
    }

    lemma FullBatch(w: World, b: Batch)
      requires BatchOk(w, b)
      ensures Full(w, b) ==> |b.selected - b.stolen| == batchSize
    {
      hide OldIds;
      SubsetSize(b.Deleted(), b.selected);
    }

    /** What a run that returned nil tells about the rows of the table: none that is SENT is left
        below the last batch's cutoff, exactly when its selection was not cut by the batch size. */
    lemma NilReturnExactly(world: nat -> World, batches: seq<Batch>, start: Snapshot, now: Snapshot, lastCutoff: int,
                           total: nat)
      requires Ended(world, batches, start, now, lastCutoff, total, true)
      ensures batches != []
      ensures var last := batches[|batches| - 1];
              && last.cutoff == now.clock - days * 86_400_000_000_000
              && ((forall id :: id in now.rows && now.rows[id].status.Sent? && now.rows[id].sentAt.Some? ==>
                     now.rows[id].sentAt.value >= last.cutoff)
                  <==> |set id | id in last.start.rows && last.start.rows[id].status.Sent?
                           && last.start.rows[id].sentAt.Some?
                           && last.start.rows[id].sentAt.value < last.cutoff| <= batchSize)
    {
      var last := batches[|batches| - 1];
      OldExactly(last.start.rows, last.cutoff);
      NoneOld(now.rows, last.cutoff);
    }

    lemma LastBatch(w: World, b: Batch)
      requires BatchOk(w, b) && Succeeds(w) && |b.Deleted()| < batchSize
      ensures Drained(b, batchSize, b.Finish().rows)
    {
      PurgedRows(b, batchSize, b.cutoff);
      assert b.stolen == {} ==> b.Deleted() == b.selected;
    }
  }

  lemma NoneOld(rows: Table, cutoff: int)
    ensures OldIds(rows, cutoff) == {}
            <==> forall id :: id in rows && rows[id].status.Sent? && rows[id].sentAt.Some? ==>
                   rows[id].sentAt.value >= cutoff
  {
    if OldIds(rows, cutoff) == {} {
      forall id | id in rows && rows[id].status.Sent? && rows[id].sentAt.Some?
        ensures rows[id].sentAt.value >= cutoff
      {
        assert id !in OldIds(rows, cutoff);
      }
    }
    if forall id :: id in rows && rows[id].status.Sent? && rows[id].sentAt.Some? ==> rows[id].sentAt.value >= cutoff {
      forall id ensures id !in OldIds(rows, cutoff) {
      }
      assert OldIds(rows, cutoff) == {};
    }
  }

  /** What a nil return says about the rows older than the last batch's cutoff. */
  predicate Drained(last: Batch, batchSize: nat, rows: Table) {
    && (OldIds(rows, last.cutoff) == {} <==> |last.Aged()| <= batchSize)
    && (last.stolen == {} ==> OldIds(rows, last.cutoff) == {})
  }

  /** The rows all batches removed. */
  function RemovedBy(batches: seq<Batch>): set<EventId> {
    if batches == [] then {} else RemovedBy(batches[..|batches| - 1]) + batches[|batches| - 1].Removed()
  }

  function Count(batches: seq<Batch>): nat {
    if batches == [] then 0 else Count(batches[..|batches| - 1]) + |batches[|batches| - 1].Removed()|
  }

  lemma Counted(batches: seq<Batch>, b: Batch)
    ensures Count(batches + [b]) == Count(batches) + |b.Removed()|
  {
    assert (batches + [b])[..|batches|] == batches;
  }

  function Finish(batches: seq<Batch>, start: Snapshot): Snapshot {
    if batches == [] then start else batches[|batches| - 1].Finish()
  }

  lemma OldAfterRemoval(rows: Table, removed: set<EventId>, cutoff: int)
    ensures OldIds(rows - removed, cutoff) == OldIds(rows, cutoff) - removed
  {
  }

  lemma OldStaysOld(rows: Table, cutoff: int, lastCutoff: int)
    requires cutoff <= lastCutoff
    ensures OldIds(rows, cutoff) <= OldIds(rows, lastCutoff)
  {
    forall id | id in OldIds(rows, cutoff) ensures id in OldIds(rows, lastCutoff) {
      assert Old(rows[id], lastCutoff);
    }
  }

  /** What a batch leaves of the old rows. */
  lemma PurgedRows(b: Batch, batchSize: nat, lastCutoff: int)
    requires b.Sound(batchSize) && b.cutoff <= lastCutoff
    ensures var before, after := b.start.rows, b.Finish().rows;
            && OldIds(after, lastCutoff) <= OldIds(before, lastCutoff)
            && b.Removed() <= OldIds(before, lastCutoff) && b.Removed() !! OldIds(after, lastCutoff)
            && (b.Removed() != {} ==> |OldIds(after, lastCutoff)| < |OldIds(before, lastCutoff)|)
            && (b.applied ==> (OldIds(after, b.cutoff) == {} <==> |b.Aged()| <= batchSize))
  {
    var aged, gone := OldIds(b.start.rows, lastCutoff), if b.applied then b.selected else b.stolen;
    OldAfterRemoval(b.start.rows, gone, lastCutoff);
    OldAfterRemoval(b.start.rows, gone, b.cutoff);
    OldStaysOld(b.start.rows, b.cutoff, lastCutoff);
    hide OldIds;
    SubsetSize(b.Removed(), aged);
    SubsetSize(aged - gone, aged - b.Removed());
    SubsetSize(b.selected, b.Aged());
    assert b.Removed() != {} ==> |b.Removed()| > 0;
    assert b.applied ==> |OldIds(b.Finish().rows, b.cutoff)| == |b.Aged()| - |b.selected|;
  }

  /** Rows that are not SENT and old are untouched. */
  lemma OthersUntouched(b: Batch, batchSize: nat, id: EventId)
    requires b.Sound(batchSize) && id in b.start.rows && !Old(b.start.rows[id], b.cutoff)
    ensures id in b.Finish().rows && b.Finish().rows[id] == b.start.rows[id]
  {
    assert id !in b.Aged();
  }

  /** A nil return is no proof of an empty backlog: the janitor's batch selects one of two old
      rows, another janitor deletes that row first, and the count of zero ends the run with an
      old row left. */
  method ShortBatchCanMislead(janitor: Retention, a: EventId, b: EventId) returns (total: nat, ok: bool)
    requires janitor.days >= 1 && janitor.batchSize == 1
    requires a != b && OldIds(janitor.db.rows, janitor.db.clock - janitor.days * DAY) == {a, b}
    modifies janitor.db
    ensures ok && total == 0
    ensures |OldIds(janitor.db.rows, old(janitor.db.clock) - janitor.days * DAY)| == 1
  {
    var world: nat -> World := _ => World({a, b}, false, false, NoFault, s => s);
    ghost var start := janitor.db.Snap();
    ghost var gone, batches;
    hide OldIds;
    hide Retention.Ended;
    total, ok, gone, batches := janitor.Purge(world, janitor.db.clock - janitor.days * DAY);
    StolenRun(janitor, world, batches, start, janitor.db.Snap(), total, ok, a, b);
  }

  lemma StolenRun(janitor: Retention, world: nat -> World, batches: seq<Batch>, start: Snapshot, now: Snapshot,
                  total: nat, ok: bool, a: EventId, b: EventId)
    requires janitor.Ended(world, batches, start, now, start.clock - janitor.days * DAY, total, ok)
    requires janitor.batchSize == 1 && a != b && OldIds(start.rows, start.clock - janitor.days * DAY) == {a, b}
    requires !world(0).cancelled && world(0).stolen == {a, b} && janitor.Succeeds(world(0))
    ensures ok && total == 0 && |OldIds(now.rows, start.clock - janitor.days * DAY)| == 1
  {
    hide OldIds;
    hide Drained;
    StolenRunIsShort(janitor, world, batches, start, start.clock - janitor.days * DAY);
    StolenBatch(janitor, world, batches[0], start, a, b);
  }

  lemma StolenBatch(janitor: Retention, world: nat -> World, batch: Batch, start: Snapshot, a: EventId, b: EventId)
    requires janitor.batchSize == 1 && janitor.BatchOk(world(0), batch) && batch.start == start
    requires a != b && OldIds(start.rows, start.clock - janitor.days * DAY) == {a, b}
    requires world(0).stolen == {a, b} && janitor.Succeeds(world(0))
    ensures |OldIds(batch.Finish().rows, start.clock - janitor.days * DAY)| == 1
  {
    assert OldIds(batch.Finish().rows, batch.cutoff) == {a, b} - batch.selected;
    SubsetSize(batch.selected, {a, b});
    assert |{a, b}| == 2;
  }

  lemma {:induction false} StolenRunIsShort(janitor: Retention, world: nat -> World, batches: seq<Batch>,
                                            start: Snapshot, lastCutoff: int)
    requires janitor.BatchesOk(world, batches, start, lastCutoff) && janitor.Succeeds(world(0))
    requires OldIds(start.rows, start.clock - janitor.days * DAY) <= world(0).stolen
    ensures |batches| <= 1
    ensures batches != [] ==>
              && batches[0].start == start && janitor.BatchOk(world(0), batches[0])
              && !janitor.Full(world(0), batches[0]) && Count(batches) == 0
    decreases |batches|
  {
    if |batches| > 1 {
      var n := |batches| - 1;
      StolenRunIsShort(janitor, world, batches[..n], start, lastCutoff);
      assert false;
    }
  }

  /** Every transaction that may still mark a row SENT began after the cutoff. */
  ghost predicate YoungerThan(s: RelaySystem.State, lastCutoff: int) {
    s.clock >= lastCutoff && forall b :: b in s.open ==> s.open[b].now >= lastCutoff
  }

  lemma StepAges(cfg: Config, s: RelaySystem.State, step: RelaySystem.Step, lastCutoff: int)
    requires RelaySystem.LockInv(cfg, s) && RelaySystem.Enabled(cfg, s, step) && YoungerThan(s, lastCutoff)
    ensures var s' := RelaySystem.Apply(cfg, s, step);
            && YoungerThan(s', lastCutoff) && s.clock <= s'.clock
            && OldIds(s'.rows, lastCutoff) <= OldIds(s.rows, lastCutoff)
  {
    var s' := RelaySystem.Apply(cfg, s, step);
    forall id | id in OldIds(s'.rows, lastCutoff) ensures id in OldIds(s.rows, lastCutoff) {
      if step.Commit? {
        var _ := RelaySystem.CommitRow(cfg, s, step, id);
      }
    }
  }

  /** Any run of the relay between two batches keeps to what `Purge` assumes of it, when all open
      transactions are younger than the run's last cutoff: the rows below it only become fewer. */
  lemma {:induction false} RunAges(cfg: Config, s: RelaySystem.State, steps: seq<RelaySystem.Step>, days: nat,
                                   lastCutoff: int)
    requires RelaySystem.LockInv(cfg, s) && RelaySystem.Run(cfg, s, steps) && YoungerThan(s, lastCutoff)
    requires RelaySystem.Final(cfg, s, steps).clock - days * DAY <= lastCutoff
    ensures var f := RelaySystem.Final(cfg, s, steps);
            && Ages(Snapshot(s.rows, RelaySystem.LockedIds(s), s.clock),
                    Snapshot(f.rows, RelaySystem.LockedIds(f), f.clock), days, lastCutoff)
            && YoungerThan(f, lastCutoff)
    decreases |steps|
  {
    hide RelaySystem.Apply;
    hide RelaySystem.Enabled;
    hide RelaySystem.LockInv;
    hide OldIds;
    hide YoungerThan;
    if steps != [] {
      StepAges(cfg, s, steps[0], lastCutoff);
      RelaySystem.LockInvKept(cfg, s, steps[0]);
      RunAges(cfg, RelaySystem.Apply(cfg, s, steps[0]), steps[1..], days, lastCutoff);
    }
  }

  /** Each batch's delete is a purge step of the relay's system, so whatever holds of every run
      of the relay holds with the janitor running: live and DEAD rows stay, and what is removed
      was SENT. */
  lemma BatchIsPurgeStep(cfg: Config, s: RelaySystem.State, b: Batch, batchSize: nat)
    requires b.Sound(batchSize) && b.start.rows == s.rows && b.cutoff <= s.clock
    ensures var step := RelaySystem.Purge(if b.applied then b.selected else b.stolen, b.cutoff);
            RelaySystem.Enabled(cfg, s, step) && RelaySystem.Apply(cfg, s, step).rows == b.Finish().rows
    ensures forall id :: id in s.rows && !s.rows[id].status.Sent? ==>
              id in b.Finish().rows && b.Finish().rows[id] == s.rows[id]
  {
    forall id | id in b.selected ensures id in s.rows && Old(s.rows[id], b.cutoff) {
      assert id in b.Aged();
    }
  }
}
