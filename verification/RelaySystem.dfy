/** The polling relay as a concurrent step system: any number of workers, the posting
    procedures, the CDC relay and the retention purge share one table and one broker.
    A step's label carries every choice the environment makes, so `Apply` is a function. */
module RelaySystem {
  import opened Outbox

  type BatchId = nat

  /** An open claim transaction. `now` is fixed when the transaction begins; the rows of
      `events` stay locked until it ends; `replies` answers the first publishes. */
  datatype Tx = Tx(now: int, claimed: bool, events: seq<Event>, replies: seq<Reply>) {
    predicate WellFormed() {
      |replies| <= |events|
    }

    function Sent(): seq<SentRef>
      requires WellFormed()
    {
      SentRefs(events, replies)
    }

    function Failures(): seq<EventId>
      requires WellFormed()
    {
      FailedIds(events, replies)
    }

    /** Claimed events not yet published. */
    function Unanswered(): nat {
      if WellFormed() then |events| - |replies| else 0
    }
  }

  datatype Fate = Committed | Aborted

  /** One call of the publisher, as history. The broker's log is the stored calls. */
  datatype Call = Call(event: Event, batch: BatchId, reply: Reply) {
    predicate Stored() {
      !reply.NotStored?
    }
  }

  datatype Counters = Counters(fetched: nat, processed: nat, failed: nat, dead: nat, published: nat)

  /** `orphans` are batches whose session the server has ended, and with it their locks, while
      their worker goes on publishing: it learns of the loss only at its commit. `calls`, `fates`,
      `purged`, `stamps` (the failure timestamps of each event) and `abandoned` (claimed events
      that a crash left unpublished) are history: no guard but the freshness of names and broker
      offsets reads them. */
  datatype State = State(
    rows: Table,
    open: map<BatchId, Tx>,
    orphans: map<BatchId, Tx>,
    clock: int,
    metrics: Counters,
    calls: seq<Call>,
    fates: map<BatchId, Fate>,
    purged: Table,
    stamps: map<EventId, seq<int>>,
    abandoned: nat)

  datatype Step =
    | Insert(id: EventId, msg: Message, createdAt: int)
    | Begin(batch: BatchId)
    | Claim(batch: BatchId, ids: seq<EventId>)
    | Publish(batch: BatchId, reply: Reply)
    | Commit(batch: BatchId, reported: bool)  // `reported` is false when the client sees an error
    | Rollback(batch: BatchId)                // also a refused commit, or a crash of the worker
    | Sever(batch: BatchId)                   // the session is lost, the worker is not
    | CdcMarkSent(ref: SentRef)
    | Purge(victims: set<EventId>, cutoff: int)
    | Tick(elapsed: nat)

  const EMPTY: State := State(map[], map[], map[], 0, Counters(0, 0, 0, 0, 0), [], map[], map[], map[], 0)

  /** Rows locked by some open transaction. */
  function LockedIds(s: State): (locked: set<EventId>)
    ensures forall b, id :: b in s.open && id in Ids(s.open[b].events) ==> id in locked
    ensures forall id :: id in locked ==> exists b :: b in s.open && id in Ids(s.open[b].events)
  {
    set b, e | b in s.open && e in s.open[b].events :: e.id
  }

  /** The batch a worker publishes from, whether or not its session still lives. */
  function TxOf(s: State, b: BatchId): Tx
    requires b in s.open || b in s.orphans
  {
    if b in s.open then s.open[b] else s.orphans[b]
  }

  /** Offsets of a topic partition only grow. */
  ghost predicate FreshPosition(calls: seq<Call>, topic: string, reply: Reply) {
    reply.NotStored? ||
    forall c :: c in calls && c.Stored() && c.event.msg.topic == topic && c.reply.partition == reply.partition ==>
      c.reply.offset < reply.offset
  }

  ghost predicate Enabled(cfg: Config, s: State, step: Step) {
    match step
    case Insert(id, _, createdAt) => 0 < id && id !in s.rows && id !in s.purged && createdAt <= s.clock
    case Begin(b) => b !in s.open && b !in s.fates
    case Claim(b, ids) => b in s.open && !s.open[b].claimed && Claimable(cfg, s.rows, LockedIds(s), s.open[b].now, ids)
    case Publish(b, reply) =>
      (b in s.open || b in s.orphans) && |TxOf(s, b).replies| < |TxOf(s, b).events|
      && FreshPosition(s.calls, TxOf(s, b).events[|TxOf(s, b).replies|].msg.topic, reply)
    case Commit(b, _) =>
      b in s.open && |s.open[b].replies| == |s.open[b].events| > 0
      && CommitFits(cfg, s, b)
    case Rollback(b) => true
    case Sever(b) => b in s.open
    case CdcMarkSent(ref) => ref.event !in LockedIds(s) && MarkFits(s.rows, ref, s.clock)
    case Purge(ids, cutoff) =>
      cutoff <= s.clock
      && forall id :: id in ids ==>
           id in s.rows && s.rows[id].status.Sent? && s.rows[id].sentAt.Some? && s.rows[id].sentAt.value < cutoff
    case Tick(_) => true
  }

  function CommittedRows(cfg: Config, s: State, b: BatchId): Table
    requires b in s.open && s.open[b].WellFormed()
  {
    var tx := s.open[b];
    CommitRows(s.rows, tx.Sent(), tx.Failures(), tx.now, cfg.maxAttempts)
  }

  /** Every row the commit writes fits its columns. */
  predicate CommitFits(cfg: Config, s: State, b: BatchId)
    requires b in s.open && s.open[b].WellFormed()
  {
    var tx := s.open[b];
    OutcomeFits(s.rows, tx.Sent(), tx.Failures(), tx.now, cfg.maxAttempts)
  }

  /** The counters one publish bumps; the Go test for DEAD reads the attempts seen at claim. */
  function Count(cfg: Config, m: Counters, e: Event, reply: Reply): Counters {
    if reply.Acked? then m.(processed := m.processed + 1, published := m.published + 1)
    else m.(failed := m.failed + 1, dead := if e.attempts + 1 >= cfg.maxAttempts then m.dead + 1 else m.dead)
  }

  ghost function Apply(cfg: Config, s: State, step: Step): State
    requires Enabled(cfg, s, step)
  {
    match step
    case Insert(id, msg, createdAt) =>
      s.(rows := s.rows[id := NewRow(msg, createdAt)], stamps := s.stamps[id := []])
    case Begin(b) => s.(open := s.open[b := Tx(s.clock, false, [], [])])
    case Claim(b, ids) =>
      s.(open := s.open[b := s.open[b].(claimed := true, events := EventsOf(s.rows, ids), replies := [])],
         metrics := s.metrics.(fetched := s.metrics.fetched + |ids|))
    case Publish(b, reply) =>
      var tx := TxOf(s, b);
      var e := tx.events[|tx.replies|];
      var tx' := tx.(replies := tx.replies + [reply]);
      s.(open := if b in s.open then s.open[b := tx'] else s.open,
         orphans := if b in s.open then s.orphans else s.orphans[b := tx'],
         metrics := Count(cfg, s.metrics, e, reply),
         calls := s.calls + [Call(e, b, reply)])
    case Commit(b, _) =>
      var tx := s.open[b];
      s.(rows := CommittedRows(cfg, s, b),
         open := s.open - {b},
         fates := s.fates[b := Committed],
         stamps := map id | id in s.stamps ::
                     if id in tx.Failures() then s.stamps[id] + [tx.now] else s.stamps[id])
    case Rollback(b) =>
      if b in s.open then
        s.(open := s.open - {b}, fates := s.fates[b := Aborted], abandoned := s.abandoned + s.open[b].Unanswered())
      else s
    case Sever(b) =>
      s.(open := s.open - {b}, fates := s.fates[b := Aborted], orphans := s.orphans[b := s.open[b]])
    case CdcMarkSent(ref) => s.(rows := CdcMark(s.rows, ref, s.clock))
    case Purge(ids, _) =>
      s.(rows := s.rows - ids, purged := s.purged + map id | id in ids && id in s.rows :: s.rows[id])
    case Tick(elapsed) => s.(clock := s.clock + elapsed)
  }

  /** A run from `s` that takes `steps` in order. */
  ghost predicate Run(cfg: Config, s: State, steps: seq<Step>)
    decreases |steps|
  {
    steps == [] || (Enabled(cfg, s, steps[0]) && Run(cfg, Apply(cfg, s, steps[0]), steps[1..]))
  }

  ghost function Final(cfg: Config, s: State, steps: seq<Step>): State
    requires Run(cfg, s, steps)
    decreases |steps|
  {
    if steps == [] then s else Final(cfg, Apply(cfg, s, steps[0]), steps[1..])
  }

  lemma {:induction false} RunConcat(cfg: Config, s: State, first: seq<Step>, second: seq<Step>)
    requires Run(cfg, s, first) && Run(cfg, Final(cfg, s, first), second)
    ensures Run(cfg, s, first + second)
    ensures Final(cfg, s, first + second) == Final(cfg, Final(cfg, s, first), second)
    decreases |first|
  {
    hide Apply;
    hide Enabled;
    if first == [] {
      assert first + second == second;
    } else {
      RunConcat(cfg, Apply(cfg, s, first[0]), first[1..], second);
      assert (first + second)[1..] == first[1..] + second;
    }
  }

  lemma {:induction false} RunSplit(cfg: Config, s: State, first: seq<Step>, second: seq<Step>)
    requires Run(cfg, s, first + second)
    ensures Run(cfg, s, first) && Run(cfg, Final(cfg, s, first), second)
    ensures Final(cfg, s, first + second) == Final(cfg, Final(cfg, s, first), second)
    decreases |first|
  {
    hide Apply;
    hide Enabled;
    if first == [] {
      assert first + second == second;
    } else {
      assert (first + second)[1..] == first[1..] + second;
      RunSplit(cfg, Apply(cfg, s, first[0]), first[1..], second);
    }
  }

  lemma RunOne(cfg: Config, s: State, step: Step)
    ensures Run(cfg, s, [step]) <==> Enabled(cfg, s, step)
    ensures Enabled(cfg, s, step) ==> Final(cfg, s, [step]) == Apply(cfg, s, step)
  {
    hide Apply;
    hide Enabled;
    assert [step][1..] == [];
  }

  // ----- Lock exclusivity -----------------------------------------------------------------

  ghost predicate TxHolds(cfg: Config, rows: Table, tx: Tx) {
    && tx.WellFormed()
    && (!tx.claimed ==> tx.events == [])
    && DistinctIds(tx.events)
    && forall i :: 0 <= i < |tx.events| ==> Held(cfg, rows, tx.now, tx.events[i])
  }

  ghost predicate Exclusive(open: map<BatchId, Tx>) {
    forall b, c :: b in open && c in open && b != c ==> Ids(open[b].events) !! Ids(open[c].events)
  }

  ghost predicate LockInv(cfg: Config, s: State) {
    && (forall b :: b in s.open ==> TxHolds(cfg, s.rows, s.open[b]))
    && Exclusive(s.open)
    && s.open.Keys !! s.fates.Keys
    && s.rows.Keys !! s.purged.Keys
    && OrphansAborted(s)
  }

  /** An orphaned batch can never commit. */
  ghost predicate OrphansAborted(s: State) {
    forall b :: b in s.orphans ==> b in s.fates && s.fates[b] == Aborted && s.orphans[b].WellFormed()
  }

  /** The rely condition of a worker: a step keeps every row locked by a batch it does not end. */
  lemma LockedRowsAreStable(cfg: Config, s: State, step: Step, b: BatchId)
    requires LockInv(cfg, s) && Enabled(cfg, s, step) && b in s.open
    requires step != Rollback(b) && step != Sever(b) && !(step.Commit? && step.batch == b)
    ensures b in Apply(cfg, s, step).open
    ensures forall id :: id in Ids(s.open[b].events) ==>
              id in Apply(cfg, s, step).rows && Apply(cfg, s, step).rows[id] == s.rows[id]
  {
    forall id | id in Ids(s.open[b].events)
      ensures id in Apply(cfg, s, step).rows && Apply(cfg, s, step).rows[id] == s.rows[id]
    {
      assert TxHolds(cfg, s.rows, s.open[b]);
      var i :| 0 <= i < |s.open[b].events| && s.open[b].events[i].id == id;
      assert Held(cfg, s.rows, s.open[b].now, s.open[b].events[i]);
      LockedRowIsStable(cfg, s, step, b, id);
    }
  }

  lemma LockedRowIsStable(cfg: Config, s: State, step: Step, b: BatchId, id: EventId)
    requires LockInv(cfg, s) && Enabled(cfg, s, step) && b in s.open
    requires id in Ids(s.open[b].events) && id in s.rows && s.rows[id].Live()
    requires step.Commit? ==> step.batch != b
    ensures id in Apply(cfg, s, step).rows && Apply(cfg, s, step).rows[id] == s.rows[id]
  {
    if step.Commit? {
      assert id !in Ids(s.open[step.batch].events);
      var _ := CommitRow(cfg, s, step, id);
    }
  }

  /** Steps that leave batch `b` open. */
  predicate Spares(steps: seq<Step>, b: BatchId) {
    forall i :: 0 <= i < |steps| ==> steps[i] != Rollback(b) && steps[i] != Sever(b)
                                     && !(steps[i].Commit? && steps[i].batch == b)
                                     && !(steps[i].Claim? && steps[i].batch == b)
  }

  /** Batch `b` holds the same claim in both states, and its rows are the same. */
  ghost predicate Keeps(s: State, s': State, b: BatchId) {
    && b in s.open && b in s'.open && s'.open[b].events == s.open[b].events
    && forall id :: id in Ids(s.open[b].events) ==> id in s.rows && id in s'.rows && s'.rows[id] == s.rows[id]
  }

  lemma StepKeepsClaim(cfg: Config, s: State, step: Step, b: BatchId)
    requires LockInv(cfg, s) && Enabled(cfg, s, step) && b in s.open && Spares([step], b)
    ensures Keeps(s, Apply(cfg, s, step), b)
  {
    assert [step][0] == step;
    LockedRowsAreStable(cfg, s, step, b);
    LockedRowsExist(cfg, s, b);
  }

  /** Over any run of the other sessions, and of its own publishes, a batch's rows stay as claimed. */
  lemma {:induction false} LocksOutlastRuns(cfg: Config, s: State, steps: seq<Step>, b: BatchId)
    requires LockInv(cfg, s) && Run(cfg, s, steps) && b in s.open && Spares(steps, b)
    ensures Keeps(s, Final(cfg, s, steps), b)
    decreases |steps|
  {
    if steps != [] {
      assert Spares([steps[0]], b);
      StepKeepsClaim(cfg, s, steps[0], b);
      LockInvKept(cfg, s, steps[0]);
      LocksOutlastRuns(cfg, Apply(cfg, s, steps[0]), steps[1..], b);
    } else {
      LockedRowsExist(cfg, s, b);
    }
  }

  lemma LockedRowsExist(cfg: Config, s: State, b: BatchId)
    requires LockInv(cfg, s) && b in s.open
    ensures forall id :: id in Ids(s.open[b].events) ==> id in s.rows
  {
    assert TxHolds(cfg, s.rows, s.open[b]);
    forall id | id in Ids(s.open[b].events) ensures id in s.rows {
      var i :| 0 <= i < |s.open[b].events| && s.open[b].events[i].id == id;
      assert Held(cfg, s.rows, s.open[b].now, s.open[b].events[i]);
    }
  }

  lemma LockInvKept(cfg: Config, s: State, step: Step)
    requires LockInv(cfg, s) && Enabled(cfg, s, step)
    ensures LockInv(cfg, Apply(cfg, s, step))
  {
    if step.Claim? {
      ClaimKeepsLocks(cfg, s, step.batch, step.ids);
    } else {
      var s' := Apply(cfg, s, step);
      forall b | b in s'.open ensures TxHolds(cfg, s'.rows, s'.open[b]) {
        OtherStepsKeepTx(cfg, s, step, b);
      }
      OtherStepsKeepNames(cfg, s, step);
    }
  }

  lemma OtherStepsKeepTx(cfg: Config, s: State, step: Step, b: BatchId)
    requires LockInv(cfg, s) && Enabled(cfg, s, step) && !step.Claim? && b in Apply(cfg, s, step).open
    ensures TxHolds(cfg, Apply(cfg, s, step).rows, Apply(cfg, s, step).open[b])
  {
    if b in s.open {
      LockedRowsAreStable(cfg, s, step, b);
    }
  }

  lemma OtherStepsKeepNames(cfg: Config, s: State, step: Step)
    requires LockInv(cfg, s) && Enabled(cfg, s, step) && !step.Claim?
    ensures var s' := Apply(cfg, s, step);
            Exclusive(s'.open) && s'.open.Keys !! s'.fates.Keys && s'.rows.Keys !! s'.purged.Keys && OrphansAborted(s')
  {
    OtherStepsKeepExclusive(cfg, s, step);
    OtherStepsKeepFates(cfg, s, step);
    hide Exclusive;
    hide OrphansAborted;
  }

  lemma OtherStepsKeepExclusive(cfg: Config, s: State, step: Step)
    requires LockInv(cfg, s) && Enabled(cfg, s, step) && !step.Claim?
    ensures Exclusive(Apply(cfg, s, step).open)
  {
  }

  lemma OtherStepsKeepFates(cfg: Config, s: State, step: Step)
    requires LockInv(cfg, s) && Enabled(cfg, s, step) && !step.Claim?
    ensures OrphansAborted(Apply(cfg, s, step))
  {
  }

  lemma ClaimKeepsLocks(cfg: Config, s: State, b: BatchId, ids: seq<EventId>)
    requires LockInv(cfg, s) && Enabled(cfg, s, Claim(b, ids))
    ensures LockInv(cfg, Apply(cfg, s, Claim(b, ids)))
  {
    var s' := Apply(cfg, s, Claim(b, ids));
    forall c | c in s.open && c != b ensures Ids(s'.open[b].events) !! Ids(s'.open[c].events) {
      forall id | id in Ids(s'.open[b].events) ensures id !in Ids(s.open[c].events) {
        assert id in ids;
        assert id !in LockedIds(s);
      }
    }
  }

  /** What a commit does to one row: its own outcome if the batch claimed it, nothing otherwise. */
  lemma CommitRow(cfg: Config, s: State, step: Step, id: EventId) returns (i: int)
    requires LockInv(cfg, s) && step.Commit? && Enabled(cfg, s, step)
    ensures Apply(cfg, s, step).rows.Keys == s.rows.Keys
    ensures var tx := s.open[step.batch];
            if id in Ids(tx.events) then
              && 0 <= i < |tx.events| && tx.events[i].id == id
              && Held(cfg, s.rows, tx.now, tx.events[i])
              && Apply(cfg, s, step).rows[id] == Outcome(s.rows[id], id, tx.replies[i], tx.now, cfg.maxAttempts)
              && (id in tx.Failures() <==> !tx.replies[i].Acked?)
            else
              id !in tx.Failures() && (id in s.rows ==> Apply(cfg, s, step).rows[id] == s.rows[id])
  {
    var tx := s.open[step.batch];
    CommitOutcome(s.rows, tx.events, tx.replies, tx.now, cfg.maxAttempts);
    if id in Ids(tx.events) {
      i :| 0 <= i < |tx.events| && tx.events[i].id == id;
      assert Held(cfg, s.rows, tx.now, tx.events[i]);
      SplitAt(tx.events, tx.replies, i);
    } else {
      i := -1;
      SplitForeign(tx.events, tx.replies, id);
    }
  }
}
