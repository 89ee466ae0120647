/** The worker's code and the step system are the same thing: each poll of `Polling` is a run of
    `RelaySystem` in which the other sessions may do anything that row locks allow. */
module PollRefinement {
  import opened Outbox
  import opened RelaySystem
  import opened RelayAtomicity
  import opened OutboxRepo
  import opened Polling
  import RelayDelivery

  function SnapOf(s: State): Snapshot {
    Snapshot(s.rows, LockedIds(s), s.clock)
  }

  // ----- Other sessions --------------------------------------------------------------------

  lemma {:induction false} ClockGrows(cfg: Config, s: State, steps: seq<Step>)
    requires Run(cfg, s, steps)
    ensures s.clock <= Final(cfg, s, steps).clock
    decreases |steps|
  {
    hide Apply;
    hide Enabled;
    if steps != [] {
      StepClock(cfg, s, steps[0]);
      ClockGrows(cfg, Apply(cfg, s, steps[0]), steps[1..]);
    }
  }

  lemma StepClock(cfg: Config, s: State, step: Step)
    requires Enabled(cfg, s, step)
    ensures s.clock <= Apply(cfg, s, step).clock
  {
  }

  /** Whatever run of the system lies between two statements of an open batch, the batch sees no
      more than `Allowed` says: the interference its methods are proved against is real. */
  lemma OthersAreAllowed(cfg: Config, s: State, steps: seq<Step>, b: BatchId, others: Others)
    requires LockInv(cfg, s) && Run(cfg, s, steps) && b in s.open && Spares(steps, b)
    requires others(SnapOf(s)) == SnapOf(Final(cfg, s, steps))
    ensures Allowed(SnapOf(s), SnapOf(Final(cfg, s, steps)), Ids(s.open[b].events))
    ensures Interfere(others, SnapOf(s), Ids(s.open[b].events)) == SnapOf(Final(cfg, s, steps))
  {
    ClockGrows(cfg, s, steps);
    LocksOutlastRuns(cfg, s, steps, b);
  }

  /** The same for a session that holds no lock. */
  lemma AnyRunIsAllowed(cfg: Config, s: State, steps: seq<Step>, others: Others)
    requires Run(cfg, s, steps) && others(SnapOf(s)) == SnapOf(Final(cfg, s, steps))
    ensures Interfere(others, SnapOf(s), {}) == SnapOf(Final(cfg, s, steps))
  {
    ClockGrows(cfg, s, steps);
  }

  // ----- Claiming --------------------------------------------------------------------------

  lemma EventsAreRows(cfg: Config, rows: Table, now: int, events: seq<Event>)
    requires AllHeld(cfg, rows, now, events)
    ensures forall i :: 0 <= i < |events| ==> ClaimedIds(events)[i] in rows
    ensures EventsOf(rows, ClaimedIds(events)) == events
  {
    forall i | 0 <= i < |events|
      ensures ClaimedIds(events)[i] in rows && EventOf(events[i].id, rows[events[i].id]) == events[i]
    {
      assert Held(cfg, rows, now, events[i]);
    }
  }

  /** From any state of the system that looks like the worker's database, its claim is two steps. */
  lemma ClaimIsRun(cfg: Config, s: State, b: BatchId, world: World, poll: Poll)
    requires LockInv(cfg, s) && b !in s.open && b !in s.fates
    requires world.Claims() && ClaimOk(cfg, world, poll.start, poll.events) && poll.start == SnapOf(s)
    ensures Run(cfg, s, [Begin(b), Claim(b, ClaimedIds(poll.events))])
    ensures var t := Final(cfg, s, [Begin(b), Claim(b, ClaimedIds(poll.events))]);
            && LockInv(cfg, t) && t.calls == s.calls
            && t.metrics == s.metrics.(fetched := s.metrics.fetched + |poll.events|)
            && b in t.open && t.open[b] == Tx(poll.start.clock, true, poll.events, [])
            && SnapOf(t) == poll.start.(locked := poll.start.locked + Ids(poll.events))
  {
    var ids := ClaimedIds(poll.events);
    var begun := Apply(cfg, s, Begin(b));
    RelayDelivery.BeginLocksNothing(cfg, s, b);
    LockInvKept(cfg, s, Begin(b));
    EventsAreRows(cfg, s.rows, s.clock, poll.events);
    LockInvKept(cfg, begun, Claim(b, ids));
    RelayDelivery.ClaimLocksItsRows(cfg, begun, b, ids);
    SameIds(poll.events);
    TwoSteps(cfg, s, Begin(b), Claim(b, ids));
  }

  lemma SameIds(events: seq<Event>)
    ensures (set id | id in ClaimedIds(events)) == Ids(events)
  {
    forall id ensures id in ClaimedIds(events) <==> id in Ids(events) {
      if i :| 0 <= i < |events| && events[i].id == id {
        assert ClaimedIds(events)[i] == id;
      }
    }
  }

  lemma TwoSteps(cfg: Config, s: State, first: Step, second: Step)
    requires Enabled(cfg, s, first) && Enabled(cfg, Apply(cfg, s, first), second)
    ensures Run(cfg, s, [first, second])
    ensures Final(cfg, s, [first, second]) == Apply(cfg, Apply(cfg, s, first), second)
  {
    hide Apply;
    hide Enabled;
    assert [first, second][1..] == [second] && [second][1..] == [];
    var t := Apply(cfg, s, first);
    assert Run(cfg, t, [second]) && Final(cfg, t, [second]) == Apply(cfg, t, second) by {
      assert Run(cfg, Apply(cfg, t, second), []);
    }
  }

  // ----- Publishing ------------------------------------------------------------------------

  function PublishSteps(b: BatchId, replies: seq<Reply>): seq<Step> {
    if replies == [] then [] else [Publish(b, replies[0])] + PublishSteps(b, replies[1..])
  }

  /** Every answer names a position the broker has not used. */
  ghost predicate FreshPositions(calls: seq<Call>, b: BatchId, events: seq<Event>, replies: seq<Reply>)
    requires |replies| <= |events|
  {
    forall i :: 0 <= i < |replies| ==>
      FreshPosition(calls + CallsOf(b, events, replies[..i]), events[i].msg.topic, replies[i])
  }

  /** The state `s` with `replies` received for batch `b`, counting from calls and counters
      as they were when the batch had published nothing. */
  function Published(cfg: Config, s: State, b: BatchId, replies: seq<Reply>): State
    requires b in s.open && |replies| <= |s.open[b].events|
  {
    s.(open := s.open[b := s.open[b].(replies := replies)],
       calls := s.calls + CallsOf(b, s.open[b].events, replies),
       metrics := CountAll(cfg, s.metrics, s.open[b].events, replies))
  }

  lemma PublishOnce(cfg: Config, s: State, b: BatchId, done: seq<Reply>, reply: Reply)
    requires b in s.open && |done| < |s.open[b].events|
    requires FreshPosition(s.calls + CallsOf(b, s.open[b].events, done), s.open[b].events[|done|].msg.topic, reply)
    ensures Enabled(cfg, Published(cfg, s, b, done), Publish(b, reply))
    ensures Apply(cfg, Published(cfg, s, b, done), Publish(b, reply)) == Published(cfg, s, b, done + [reply])
  {
    assert (done + [reply])[..|done|] == done;
    var events := s.open[b].events;
    assert s.calls + (CallsOf(b, events, done) + [Call(events[|done|], b, reply)])
           == (s.calls + CallsOf(b, events, done)) + [Call(events[|done|], b, reply)];
  }

  lemma FreshAt(calls: seq<Call>, b: BatchId, events: seq<Event>, done: seq<Reply>, rest: seq<Reply>)
    requires |done| + |rest| <= |events| && rest != [] && FreshPositions(calls, b, events, done + rest)
    ensures FreshPosition(calls + CallsOf(b, events, done), events[|done|].msg.topic, rest[0])
  {
    assert (done + rest)[..|done|] == done && (done + rest)[|done|] == rest[0];
  }

  /** With fresh positions the publish loop is a run, whatever the broker answers, and it adds up
      to the loop's lists, calls and counters; the table does not change before the commit. */
  lemma {:induction false} PublishRun(cfg: Config, s: State, b: BatchId, done: seq<Reply>, replies: seq<Reply>)
    requires b in s.open && |done| + |replies| == |s.open[b].events|
    requires FreshPositions(s.calls, b, s.open[b].events, done + replies)
    ensures Run(cfg, Published(cfg, s, b, done), PublishSteps(b, replies))
    ensures Final(cfg, Published(cfg, s, b, done), PublishSteps(b, replies)) == Published(cfg, s, b, done + replies)
    decreases |replies|
  {
    hide Apply;
    hide Enabled;
    hide FreshPositions;
    hide Published;
    if replies == [] {
      assert done + [] == done;
    } else {
      var steps := PublishSteps(b, replies);
      assert steps[0] == Publish(b, replies[0]) && steps[1..] == PublishSteps(b, replies[1..]);
      FreshAt(s.calls, b, s.open[b].events, done, replies);
      PublishOnce(cfg, s, b, done, replies[0]);
      assert done + replies == done + [replies[0]] + replies[1..];
      PublishRun(cfg, s, b, done + [replies[0]], replies[1..]);
    }
  }

  lemma {:induction false} PublishStepsAnswer(b: BatchId, replies: seq<Reply>)
    ensures RepliesTo(PublishSteps(b, replies), b) == replies && Spares(PublishSteps(b, replies), b)
  {
    if replies != [] {
      PublishStepsAnswer(b, replies[1..]);
      var steps := PublishSteps(b, replies);
      assert steps[1..] == PublishSteps(b, replies[1..]);
      forall i | 0 < i < |steps| ensures steps[i] == steps[1..][i - 1] {
      }
    }
  }

  lemma PublishesAreRun(cfg: Config, s: State, b: BatchId, replies: seq<Reply>)
    requires b in s.open && s.open[b].replies == [] && |replies| == |s.open[b].events|
    requires FreshPositions(s.calls, b, s.open[b].events, replies)
    ensures Run(cfg, s, PublishSteps(b, replies))
    ensures Final(cfg, s, PublishSteps(b, replies)) == Published(cfg, s, b, replies)
    ensures RepliesTo(PublishSteps(b, replies), b) == replies && Spares(PublishSteps(b, replies), b)
  {
    assert s.calls + [] == s.calls;
    assert s.open[b := s.open[b].(replies := [])] == s.open;
    assert s == Published(cfg, s, b, []);
    assert [] + replies == replies;
    PublishRun(cfg, s, b, [], replies);
    PublishStepsAnswer(b, replies);
  }

  // ----- Ending ----------------------------------------------------------------------------

  lemma WrittenIsCommit(before: Table, after: Table, events: seq<Event>, replies: seq<Reply>,
                        now: int, maxAttempts: nat)
    requires Written(before, after, events, replies, now, maxAttempts) && DistinctIds(events)
    ensures after == CommitRows(before, SentRefs(events, replies), FailedIds(events, replies), now, maxAttempts)
  {
    CommitOutcome(before, events, replies, now, maxAttempts);
    var rows := CommitRows(before, SentRefs(events, replies), FailedIds(events, replies), now, maxAttempts);
    forall id | id in after ensures after[id] == rows[id] {
      if id in Ids(events) {
        var i :| 0 <= i < |events| && events[i].id == id;
      }
    }
  }

  lemma EndUnlocks(cfg: Config, s: State, s': State, b: BatchId)
    requires LockInv(cfg, s) && b in s.open && s'.open == s.open - {b}
    ensures LockedIds(s') == LockedIds(s) - Ids(s.open[b].events)
  {
    forall id ensures id in LockedIds(s') <==> id in LockedIds(s) && id !in Ids(s.open[b].events) {
      if c :| c in s.open && id in Ids(s.open[c].events) && c != b {
        assert c in s'.open && s'.open[c] == s.open[c];
      }
      if c :| c in s'.open && id in Ids(s'.open[c].events) {
        assert c in s.open && s'.open[c] == s.open[c];
      }
    }
  }

  lemma CommitSnap(cfg: Config, s: State, b: BatchId, reported: bool)
    requires LockInv(cfg, s) && Enabled(cfg, s, Commit(b, reported))
    ensures SnapOf(Apply(cfg, s, Commit(b, reported)))
            == Snapshot(CommittedRows(cfg, s, b), LockedIds(s) - Ids(s.open[b].events), s.clock)
  {
    EndUnlocks(cfg, s, Apply(cfg, s, Commit(b, reported)), b);
  }

  lemma RollbackSnap(cfg: Config, s: State, b: BatchId)
    requires LockInv(cfg, s) && b in s.open
    ensures SnapOf(Apply(cfg, s, Rollback(b))) == Unlocked(SnapOf(s), Ids(s.open[b].events))
  {
    EndUnlocks(cfg, s, Apply(cfg, s, Rollback(b)), b);
  }

  /** How a poll ends: with its answers in, the system can commit the batch exactly when the outcome
      fits, and its commit, or its rollback when the poll applied nothing, leaves exactly the
      database the poll left. */
  lemma EndOfPoll(cfg: Config, f: State, b: BatchId, world: World, poll: Poll, reported: bool)
    requires PollOk(cfg, world, poll) && poll.events != [] && !poll.severed
    requires LockInv(cfg, f) && SnapOf(f) == poll.before && b in f.open
    requires f.open[b] == Tx(poll.start.clock, true, poll.events, Replies(world, poll.events))
    ensures poll.applied ==> Enabled(cfg, f, Commit(b, reported))
                             && SnapOf(Apply(cfg, f, Commit(b, reported))) == poll.finish
    ensures !poll.applied ==> SnapOf(Apply(cfg, f, Rollback(b))) == poll.finish
    ensures world.fault.LetsCommit() ==> (poll.applied <==> Enabled(cfg, f, Commit(b, reported)))
  {
    hide LockInv;
    CommitPossible(cfg, f, b, world, poll, reported);
    hide Enabled;
    hide Apply;
    if poll.applied {
      CommitSnap(cfg, f, b, reported);
      WrittenIsCommit(f.rows, poll.finish.rows, poll.events, Replies(world, poll.events), poll.start.clock,
                      cfg.maxAttempts);
    } else {
      RollbackSnap(cfg, f, b);
    }
  }

  lemma CommitPossible(cfg: Config, f: State, b: BatchId, world: World, poll: Poll, reported: bool)
    requires PollOk(cfg, world, poll) && poll.events != [] && !poll.severed
    requires SnapOf(f) == poll.before && b in f.open
    requires f.open[b] == Tx(poll.start.clock, true, poll.events, Replies(world, poll.events))
    ensures poll.applied <==> world.fault.LetsCommit() && Enabled(cfg, f, Commit(b, reported))
  {
  }
}
