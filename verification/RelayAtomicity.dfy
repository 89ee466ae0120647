/** A poll is long and interleaved with everything else, and still atomic: seen from its rows, a
    committed batch acts as if claim, publishes and updates had happened at the claim. Once an
    event is settled, only a worker that lost its session can publish it again. */
module RelayAtomicity {
  import opened Wrappers
  import opened Outbox
  import opened RelaySystem
  import opened RelaySafety

  // ----- One poll among many ---------------------------------------------------------------

  function Answer(step: Step, b: BatchId): seq<Reply> {
    if step.Publish? && step.batch == b then [step.reply] else []
  }

  /** The broker's answers to batch `b` during a run, in order. */
  function RepliesTo(steps: seq<Step>, b: BatchId): seq<Reply> {
    if steps == [] then [] else Answer(steps[0], b) + RepliesTo(steps[1..], b)
  }

  /** Batch `b` is the same transaction in both states, with `more` answers in the second. */
  ghost predicate Advanced(s: State, s': State, b: BatchId, more: seq<Reply>) {
    && b in s.open && b in s'.open
    && s'.open[b] == s.open[b].(replies := s.open[b].replies + more)
  }

  lemma StepReplies(cfg: Config, s: State, step: Step, b: BatchId)
    requires LockInv(cfg, s) && Enabled(cfg, s, step) && b in s.open && Spares([step], b)
    ensures Advanced(s, Apply(cfg, s, step), b, Answer(step, b))
  {
    assert [step][0] == step;
    assert s.open[b].replies + [] == s.open[b].replies;
  }

  lemma AdvancedTwice(s: State, t: State, u: State, b: BatchId, x: seq<Reply>, y: seq<Reply>)
    requires Advanced(s, t, b, x) && Advanced(t, u, b, y)
    ensures Advanced(s, u, b, x + y)
  {
    assert (s.open[b].replies + x) + y == s.open[b].replies + (x + y);
  }

  /** A batch that stays open collects exactly its own answers; its clock and claim stay. */
  lemma {:induction false} RepliesCollected(cfg: Config, s: State, steps: seq<Step>, b: BatchId)
    requires LockInv(cfg, s) && Run(cfg, s, steps) && b in s.open && Spares(steps, b)
    ensures Advanced(s, Final(cfg, s, steps), b, RepliesTo(steps, b))
    decreases |steps|
  {
    if steps == [] {
      assert s.open[b].replies + [] == s.open[b].replies;
    } else {
      StepReplies(cfg, s, steps[0], b);
      LockInvKept(cfg, s, steps[0]);
      RepliesCollected(cfg, Apply(cfg, s, steps[0]), steps[1..], b);
      AdvancedTwice(s, Apply(cfg, s, steps[0]), Final(cfg, s, steps), b,
                    Answer(steps[0], b), RepliesTo(steps[1..], b));
    }
  }

  lemma {:induction false} RunKeepsLocks(cfg: Config, s: State, steps: seq<Step>)
    requires LockInv(cfg, s) && Run(cfg, s, steps)
    ensures LockInv(cfg, Final(cfg, s, steps))
    decreases |steps|
  {
    if steps != [] {
      LockInvKept(cfg, s, steps[0]);
      RunKeepsLocks(cfg, Apply(cfg, s, steps[0]), steps[1..]);
    }
  }

  /** Atomicity: between a batch's claim at `s` and its commit any run of any number of workers,
      producers, marks and purges may lie. Every claimed row still ends as its own broker answer
      says, computed from the row as it was at the claim and from the claim's clock. */
  lemma PollIsAtomic(cfg: Config, s: State, steps: seq<Step>, b: BatchId, reported: bool, i: nat)
    requires LockInv(cfg, s) && b in s.open && s.open[b].replies == [] && i < |s.open[b].events|
    requires Run(cfg, s, steps) && Spares(steps, b)
    requires Enabled(cfg, Final(cfg, s, steps), Commit(b, reported))
    ensures |RepliesTo(steps, b)| == |s.open[b].events|
    ensures var id := s.open[b].events[i].id;
            var rows := Apply(cfg, Final(cfg, s, steps), Commit(b, reported)).rows;
            && id in s.rows && id in rows
            && rows[id] == Outcome(s.rows[id], id, RepliesTo(steps, b)[i], s.open[b].now, cfg.maxAttempts)
    ensures var id := s.open[b].events[i].id;
            var r, r' := s.rows[id], Apply(cfg, Final(cfg, s, steps), Commit(b, reported)).rows[id];
            && r'.msg == r.msg && r'.createdAt == r.createdAt && r'.attempts == s.open[b].events[i].attempts + 1
            && match RepliesTo(steps, b)[i]
               case Acked(partition, offset) =>
                 && r'.status == Sent && r'.sentAt == Some(s.open[b].now) && r'.settledBy == Some(Poller)
                 && r'.partition == Some(partition) && r'.offset == Some(offset)
                 && r'.lastAttemptAt == r.lastAttemptAt
               case _ =>
                 && r'.status == (if r.attempts + 1 >= cfg.maxAttempts then Dead else Failed)
                 && r'.lastAttemptAt == Some(s.open[b].now) && r'.sentAt == r.sentAt
                 && r'.partition == r.partition && r'.offset == r.offset && r'.settledBy == r.settledBy
  {
    var f := Final(cfg, s, steps);
    RepliesCollected(cfg, s, steps, b);
    assert [] + RepliesTo(steps, b) == RepliesTo(steps, b);
    RunKeepsLocks(cfg, s, steps);
    LocksOutlastRuns(cfg, s, steps, b);
    var id := s.open[b].events[i].id;
    assert id in Ids(s.open[b].events);
    assert TxHolds(cfg, s.rows, s.open[b]) && Held(cfg, s.rows, s.open[b].now, s.open[b].events[i]);
    CommitOwnRow(cfg, f, b, reported, i);
  }

  lemma CommitOwnRow(cfg: Config, s: State, b: BatchId, reported: bool, i: nat)
    requires LockInv(cfg, s) && Enabled(cfg, s, Commit(b, reported)) && i < |s.open[b].events|
    ensures var id := s.open[b].events[i].id;
            var rows := Apply(cfg, s, Commit(b, reported)).rows;
            id in s.rows && id in rows
            && rows[id] == Outcome(s.rows[id], id, s.open[b].replies[i], s.open[b].now, cfg.maxAttempts)
  {
    var tx := s.open[b];
    assert TxHolds(cfg, s.rows, tx);
    assert Held(cfg, s.rows, tx.now, tx.events[i]);
    var j := CommitRow(cfg, s, Commit(b, reported), tx.events[i].id);
    assert !(i < j) && !(j < i);
  }

  // ----- Settled events --------------------------------------------------------------------

  /** SENT, DEAD, or purged. */
  predicate Settled(s: State, id: EventId) {
    id in s.purged || (id in s.rows && !s.rows[id].Live())
  }

  /** The step stores a record of the event for a worker whose session is gone. */
  predicate Late(s: State, step: Step, id: EventId) {
    && step.Publish? && !step.reply.NotStored?
    && step.batch !in s.open && step.batch in s.orphans
    && |s.orphans[step.batch].replies| < |s.orphans[step.batch].events|
    && s.orphans[step.batch].events[|s.orphans[step.batch].replies|].id == id
  }

  lemma SettledStays(cfg: Config, s: State, step: Step, id: EventId)
    requires LockInv(cfg, s) && Enabled(cfg, s, step) && Settled(s, id)
    ensures Settled(Apply(cfg, s, step), id)
  {
    if id in s.rows && !s.rows[id].Live() {
      TerminalRowsAbsorb(cfg, s, step, id);
    }
  }

  /** A step adds a record of a settled event exactly when a severed worker publishes it. */
  lemma SettledRecords(cfg: Config, s: State, step: Step, id: EventId)
    requires LockInv(cfg, s) && Enabled(cfg, s, step) && Settled(s, id)
    ensures Records(Apply(cfg, s, step).calls, id) == Records(s.calls, id) + if Late(s, step, id) then 1 else 0
  {
    if step.Publish? {
      var tx := TxOf(s, step.batch);
      var call := Call(tx.events[|tx.replies|], step.batch, step.reply);
      assert (s.calls + [call])[..|s.calls|] == s.calls;
      if step.batch in s.open {
        assert Held(cfg, s.rows, tx.now, tx.events[|tx.replies|]);
      }
    }
  }

  ghost function LateRecords(cfg: Config, s: State, steps: seq<Step>, id: EventId): nat
    requires Run(cfg, s, steps)
    decreases |steps|
  {
    if steps == [] then 0
    else (if Late(s, steps[0], id) then 1 else 0) + LateRecords(cfg, Apply(cfg, s, steps[0]), steps[1..], id)
  }

  /** Once an event is SENT, DEAD or purged it is settled for good, and over any run its records
      grow by exactly what workers with a lost session still publish of it: as long as sessions
      live, never again. */
  lemma {:induction false} SettledForGood(cfg: Config, s: State, steps: seq<Step>, id: EventId)
    requires LockInv(cfg, s) && Run(cfg, s, steps) && Settled(s, id)
    ensures Settled(Final(cfg, s, steps), id)
    ensures Records(Final(cfg, s, steps).calls, id) == Records(s.calls, id) + LateRecords(cfg, s, steps, id)
    decreases |steps|
  {
    if steps != [] {
      SettledStays(cfg, s, steps[0], id);
      SettledRecords(cfg, s, steps[0], id);
      LockInvKept(cfg, s, steps[0]);
      SettledForGood(cfg, Apply(cfg, s, steps[0]), steps[1..], id);
    }
  }
}
