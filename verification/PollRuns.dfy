/** Whole polls, and whole poll loops, as runs of the step system: the database, the broker's calls
    and the counters that `Polling` promises are the system's own. */
module PollRuns {
  import opened Outbox
  import opened RelaySystem
  import opened RelayAtomicity
  import opened OutboxRepo
  import opened Polling
  import opened PollRefinement
  import RelayDelivery

  // ----- The worker's own view -------------------------------------------------------------

  /** Steps among which batch `b` publishes: its worker neither claims nor ends it, though its
      session may be lost. */
  predicate Leaves(steps: seq<Step>, b: BatchId) {
    forall i :: 0 <= i < |steps| ==>
      !((steps[i].Claim? || steps[i].Commit? || steps[i].Rollback?) && steps[i].batch == b)
  }

  /** The worker publishes from `tx`, whether or not its session still lives. */
  ghost predicate Works(s: State, b: BatchId, tx: Tx) {
    (b in s.open || b in s.orphans) && TxOf(s, b) == tx
  }

  function Answered(tx: Tx, more: seq<Reply>): Tx {
    tx.(replies := tx.replies + more)
  }

  lemma WorkerStep(cfg: Config, s: State, step: Step, b: BatchId, tx: Tx)
    requires LockInv(cfg, s) && Enabled(cfg, s, step) && Leaves([step], b) && Works(s, b, tx)
    ensures Works(Apply(cfg, s, step), b, Answered(tx, Answer(step, b)))
  {
    assert [step][0] == step;
    assert tx.replies + [] == tx.replies;
  }

  lemma LastStep(steps: seq<Step>, b: BatchId)
    requires steps != [] && Leaves(steps, b)
    ensures var n := |steps| - 1;
            steps == steps[..n] + [steps[n]] && Leaves(steps[..n], b) && Leaves([steps[n]], b)
            && RepliesTo(steps, b) == RepliesTo(steps[..n], b) + Answer(steps[n], b)
  {
    var n := |steps| - 1;
    assert steps == steps[..n] + [steps[n]];
    RepliesToAppend(steps[..n], steps[n], b);
  }

  lemma {:induction false} RepliesToAppend(steps: seq<Step>, step: Step, b: BatchId)
    ensures RepliesTo(steps + [step], b) == RepliesTo(steps, b) + Answer(step, b)
  {
    hide Answer;
    if steps == [] {
      assert [step][1..] == [];
    } else {
      RepliesToAppend(steps[1..], step, b);
      assert (steps + [step])[1..] == steps[1..] + [step];
    }
  }

  // ----- What the others add ---------------------------------------------------------------

  /** The calls and counts one step adds to the process. */
  ghost function Adds(cfg: Config, s: State, step: Step): Share
    requires Enabled(cfg, s, step)
  {
    match step
    case Claim(_, ids) => Share(NOTHING.(fetched := |ids|), [])
    case Publish(c, reply) =>
      var e := TxOf(s, c).events[|TxOf(s, c).replies|];
      Share(Count(cfg, NOTHING, e, reply), [Call(e, c, reply)])
    case _ => Share(NOTHING, [])
  }

  lemma AddsUp(cfg: Config, s: State, step: Step)
    requires Enabled(cfg, s, step)
    ensures Apply(cfg, s, step).calls == s.calls + Adds(cfg, s, step).calls
    ensures Apply(cfg, s, step).metrics == Plus(s.metrics, Adds(cfg, s, step).counters)
  {
    assert s.calls + [] == s.calls;
  }

  function Join(a: Share, b: Share): Share {
    Share(Plus(a.counters, b.counters), a.calls + b.calls)
  }

  const NONE: Share := Share(NOTHING, [])

  /** What a whole run adds. */
  ghost function TotalShare(cfg: Config, s: State, steps: seq<Step>): Share
    requires Run(cfg, s, steps)
    decreases |steps|
  {
    if steps == [] then NONE
    else Join(Adds(cfg, s, steps[0]), TotalShare(cfg, Apply(cfg, s, steps[0]), steps[1..]))
  }

  lemma {:induction false} TotalAddsUp(cfg: Config, s: State, steps: seq<Step>)
    requires Run(cfg, s, steps)
    ensures Final(cfg, s, steps).calls == s.calls + TotalShare(cfg, s, steps).calls
    ensures Final(cfg, s, steps).metrics == Plus(s.metrics, TotalShare(cfg, s, steps).counters)
    decreases |steps|
  {
    hide Adds;
    hide Apply;
    hide Enabled;
    hide Plus;
    hide Join;
    if steps == [] {
      PlusNothing(s.metrics, s.calls, []);
    } else {
      AddsUp(cfg, s, steps[0]);
      TotalAddsUp(cfg, Apply(cfg, s, steps[0]), steps[1..]);
      JoinAdds(s.calls, s.metrics, Adds(cfg, s, steps[0]), TotalShare(cfg, Apply(cfg, s, steps[0]), steps[1..]));
    }
  }

  lemma JoinAdds(calls: seq<Call>, m: Counters, a: Share, b: Share)
    ensures calls + a.calls + b.calls == calls + Join(a, b).calls
    ensures Plus(Plus(m, a.counters), b.counters) == Plus(m, Join(a, b).counters)
  {
  }

  /** One more step: a publish of the batch opens the next gap, anything else falls into the last. */
  ghost function MoreShares(cfg: Config, f: State, step: Step, b: BatchId, shares: seq<Share>): (more: seq<Share>)
    requires Enabled(cfg, f, step) && |shares| >= 1
    ensures |more| >= 1
  {
    if Answer(step, b) != [] then shares + [NONE]
    else shares[|shares| - 1 := Join(shares[|shares| - 1], Adds(cfg, f, step))]
  }

  /** What the others add before, between and after the publishes of batch `b`. */
  ghost function SharesOf(cfg: Config, s: State, steps: seq<Step>, b: BatchId): (shares: seq<Share>)
    requires Run(cfg, s, steps)
    ensures |shares| >= 1
    decreases |steps|
  {
    if steps == [] then [NONE]
    else
      var n := |steps| - 1;
      assert steps == steps[..n] + [steps[n]];
      RunSplit(cfg, s, steps[..n], [steps[n]]);
      RunOne(cfg, Final(cfg, s, steps[..n]), steps[n]);
      MoreShares(cfg, Final(cfg, s, steps[..n]), steps[n], b, SharesOf(cfg, s, steps[..n], b))
  }

  // ----- The shared ledger -----------------------------------------------------------------

  /** The calls and counters are what they were, the batch's own publishes, and the others' shares. */
  ghost predicate Ledger(cfg: Config, s: State, f: State, b: BatchId, events: seq<Event>, replies: seq<Reply>,
                         shares: seq<Share>)
  {
    && |replies| <= |events| && |shares| == |replies| + 1
    && f.calls == s.calls + (Woven(b, events, replies, shares) + shares[|replies|].calls)
    && f.metrics == Plus(CountAll(cfg, s.metrics, events, replies), Foreign(shares, |replies| + 1))
  }

  lemma {:induction false} WovenPrefix(b: BatchId, events: seq<Event>, replies: seq<Reply>, shares: seq<Share>,
                                       shares': seq<Share>)
    requires |replies| <= |events|
    requires forall i :: 0 <= i < |replies| ==> Nth(shares, i) == Nth(shares', i)
    ensures Woven(b, events, replies, shares) == Woven(b, events, replies, shares')
    ensures Foreign(shares, |replies|) == Foreign(shares', |replies|)
  {
    if replies != [] {
      WovenPrefix(b, events, replies[..|replies| - 1], shares, shares');
    }
  }

  /** One more publish of the batch. */
  lemma OwnEntry(cfg: Config, s: State, f: State, f': State, b: BatchId, events: seq<Event>, replies: seq<Reply>,
                 shares: seq<Share>, reply: Reply)
    requires Ledger(cfg, s, f, b, events, replies, shares) && |replies| < |events|
    requires f'.calls == f.calls + [Call(events[|replies|], b, reply)]
    requires f'.metrics == Count(cfg, f.metrics, events[|replies|], reply)
    ensures Ledger(cfg, s, f', b, events, replies + [reply], shares + [NONE])
  {
    var n, more := |replies|, shares + [NONE];
    assert (replies + [reply])[..n] == replies;
    WovenPrefix(b, events, replies, shares, more);
    assert Nth(more, n) == shares[n] && Nth(more, n + 1) == NONE;
    CountPlus(cfg, CountAll(cfg, s.metrics, events, replies), Foreign(shares, n + 1), events[n], reply);
    assert Foreign(more, n + 1) == Foreign(shares, n + 1);
    assert Woven(b, events, replies + [reply], more)
           == Woven(b, events, replies, shares) + shares[n].calls + [Call(events[n], b, reply)];
  }

  /** Something the others add. */
  lemma ForeignEntry(cfg: Config, s: State, f: State, f': State, b: BatchId, events: seq<Event>, replies: seq<Reply>,
                     shares: seq<Share>, share: Share)
    requires Ledger(cfg, s, f, b, events, replies, shares)
    requires f'.calls == f.calls + share.calls && f'.metrics == Plus(f.metrics, share.counters)
    ensures Ledger(cfg, s, f', b, events, replies, shares[|replies| := Join(shares[|replies|], share)])
  {
    var n := |replies|;
    var more := shares[n := Join(shares[n], share)];
    WovenPrefix(b, events, replies, shares, more);
    assert s.calls + (Woven(b, events, replies, shares) + shares[n].calls) + share.calls
           == s.calls + (Woven(b, events, replies, more) + (shares[n].calls + share.calls));
    PlusThree(CountAll(cfg, s.metrics, events, replies), Foreign(shares, n), shares[n].counters, share.counters);
  }

  lemma PlusThree(m: Counters, f: Counters, a: Counters, b: Counters)
    ensures Plus(Plus(m, Plus(f, a)), b) == Plus(m, Plus(f, Plus(a, b)))
  {
  }

  /** Over any run with any number of foreign steps the publisher's calls and the counters are the
      interleaving the worker's methods promise, and no foreign call is the batch's. */
  lemma {:induction false} SharedLedger(cfg: Config, s: State, steps: seq<Step>, b: BatchId, tx: Tx)
    requires LockInv(cfg, s) && Run(cfg, s, steps) && Leaves(steps, b) && Works(s, b, tx) && tx.replies == []
    ensures var f := Final(cfg, s, steps);
            && LockInv(cfg, f)
            && Works(f, b, Answered(tx, RepliesTo(steps, b)))
            && Ledger(cfg, s, f, b, tx.events, RepliesTo(steps, b), SharesOf(cfg, s, steps, b))
            && NotBy(SharesOf(cfg, s, steps, b), b)
    decreases |steps|
  {
    hide LockInv;
    hide Works;
    hide Ledger;
    hide NotBy;
    hide Apply;
    hide Enabled;
    hide SharesOf;
    hide MoreShares;
    if steps == [] {
      NothingYet(cfg, s, b, tx);
    } else {
      var n := |steps| - 1;
      var front, last := steps[..n], steps[n];
      LastStep(steps, b);
      SharesStep(cfg, s, steps, b);
      SharedLedger(cfg, s, front, b, tx);
      LedgerStep(cfg, s, Final(cfg, s, front), last, b, tx, RepliesTo(front, b), SharesOf(cfg, s, front, b));
    }
  }

  lemma NothingYet(cfg: Config, s: State, b: BatchId, tx: Tx)
    requires Works(s, b, tx) && tx.replies == []
    ensures Works(s, b, Answered(tx, [])) && SharesOf(cfg, s, [], b) == [NONE]
    ensures Ledger(cfg, s, s, b, tx.events, [], [NONE]) && NotBy([NONE], b)
  {
    hide Ledger;
    hide Works;
    assert tx.replies + [] == tx.replies;
    EmptyLedger(cfg, s, b, tx.events);
  }

  lemma NoEntries(cfg: Config, m: Counters, b: BatchId, events: seq<Event>, replies: seq<Reply>, shares: seq<Share>,
                  n: nat)
    requires replies == [] && shares == [NONE] && n == 1
    ensures Woven(b, events, replies, shares) == [] && CountAll(cfg, m, events, replies) == m
    ensures Foreign(shares, n) == NOTHING
  {
    assert Foreign(shares, n - 1) == NOTHING && Nth(shares, n - 1) == NONE;
  }

  lemma PlusNothing(m: Counters, calls: seq<Call>, more: seq<Call>)
    requires more == []
    ensures Plus(m, NOTHING) == m && calls + (more + NONE.calls) == calls && calls + NONE.calls == calls
  {
  }

  lemma EmptyLedger(cfg: Config, s: State, b: BatchId, events: seq<Event>)
    ensures Ledger(cfg, s, s, b, events, [], [NONE])
  {
    hide Woven;
    hide CountAll;
    hide Foreign;
    hide Plus;
    NoEntries(cfg, s.metrics, b, events, [], [NONE], 1);
    PlusNothing(s.metrics, s.calls, Woven(b, events, [], [NONE]));
    var none: seq<Reply> := [];
    assert |none| == 0;
  }

  lemma SharesStep(cfg: Config, s: State, steps: seq<Step>, b: BatchId)
    requires Run(cfg, s, steps) && steps != []
    ensures var n := |steps| - 1;
            && Run(cfg, s, steps[..n]) && Enabled(cfg, Final(cfg, s, steps[..n]), steps[n])
            && Final(cfg, s, steps) == Apply(cfg, Final(cfg, s, steps[..n]), steps[n])
            && SharesOf(cfg, s, steps, b)
               == MoreShares(cfg, Final(cfg, s, steps[..n]), steps[n], b, SharesOf(cfg, s, steps[..n], b))
  {
    hide Apply;
    hide Enabled;
    hide MoreShares;
    var n := |steps| - 1;
    assert steps == steps[..n] + [steps[n]];
    RunSplit(cfg, s, steps[..n], [steps[n]]);
    RunOne(cfg, Final(cfg, s, steps[..n]), steps[n]);
  }

  predicate NotBy(shares: seq<Share>, b: BatchId) {
    forall i :: 0 <= i < |shares| ==> forall c :: c in shares[i].calls ==> c.batch != b
  }

  lemma LedgerStep(cfg: Config, s: State, f: State, step: Step, b: BatchId, tx: Tx, replies: seq<Reply>,
                   shares: seq<Share>)
    requires LockInv(cfg, f) && Enabled(cfg, f, step) && Leaves([step], b)
    requires tx.replies == [] && Works(f, b, Answered(tx, replies))
    requires Ledger(cfg, s, f, b, tx.events, replies, shares) && NotBy(shares, b)
    ensures var f', replies' := Apply(cfg, f, step), replies + Answer(step, b);
            && LockInv(cfg, f') && Works(f', b, Answered(tx, replies'))
            && Ledger(cfg, s, f', b, tx.events, replies', MoreShares(cfg, f, step, b, shares))
            && NotBy(MoreShares(cfg, f, step, b, shares), b)
  {
    hide LockInv;
    hide Ledger;
    hide Apply;
    hide Enabled;
    hide Adds;
    LockInvKept(cfg, f, step);
    WorkerStep(cfg, f, step, b, Answered(tx, replies));
    assert [] + replies == replies;
    assert tx.replies + replies + Answer(step, b) == tx.replies + (replies + Answer(step, b));
    LedgerFacts(cfg, s, f, b, tx.events, replies, shares);
    if Answer(step, b) != [] {
      OwnAdds(cfg, f, step, b, Answered(tx, replies));
      OwnEntry(cfg, s, f, Apply(cfg, f, step), b, tx.events, replies, shares, step.reply);
    } else {
      AddsUp(cfg, f, step);
      ForeignAdds(cfg, f, step, b);
      assert replies + [] == replies;
      ForeignEntry(cfg, s, f, Apply(cfg, f, step), b, tx.events, replies, shares, Adds(cfg, f, step));
    }
  }

  lemma LedgerFacts(cfg: Config, s: State, f: State, b: BatchId, events: seq<Event>, replies: seq<Reply>,
                    shares: seq<Share>)
    requires Ledger(cfg, s, f, b, events, replies, shares)
    ensures |replies| <= |events| && |shares| == |replies| + 1
  {
  }

  lemma OwnAdds(cfg: Config, f: State, step: Step, b: BatchId, tx: Tx)
    requires Enabled(cfg, f, step) && Answer(step, b) != [] && Works(f, b, tx)
    ensures |tx.replies| < |tx.events| && step.Publish?
    ensures Apply(cfg, f, step).calls == f.calls + [Call(tx.events[|tx.replies|], b, step.reply)]
    ensures Apply(cfg, f, step).metrics == Count(cfg, f.metrics, tx.events[|tx.replies|], step.reply)
  {
  }

  lemma ForeignAdds(cfg: Config, f: State, step: Step, b: BatchId)
    requires Enabled(cfg, f, step) && Answer(step, b) == []
    ensures forall c :: c in Adds(cfg, f, step).calls ==> c.batch != b
  {
  }

  // ----- One poll --------------------------------------------------------------------------

  /** Where a run leads, if it is one. */
  ghost function After(cfg: Config, s: State, steps: seq<Step>): State {
    if Run(cfg, s, steps) then Final(cfg, s, steps) else s
  }

  lemma AfterIsFinal(cfg: Config, s: State, steps: seq<Step>)
    requires Run(cfg, s, steps)
    ensures After(cfg, s, steps) == Final(cfg, s, steps)
  {
  }

  function ClaimSteps(b: BatchId, poll: Poll): seq<Step> {
    [Begin(b), Claim(b, ClaimedIds(poll.events))]
  }

  /** How the system plays the time between a poll's claim and its outcome: the poll's answers,
      among any foreign steps, up to the database and with the shares that the poll saw. */
  ghost predicate PlaysPoll(cfg: Config, t: State, b: BatchId, world: World, poll: Poll, during: seq<Step>) {
    && Run(cfg, t, during) && Leaves(during, b)
    && RepliesTo(during, b) == Replies(world, poll.events)
    && (poll.severed <==> b !in Final(cfg, t, during).open)
    && SnapOf(Final(cfg, t, during)) == poll.before
    && world.shares == SharesOf(cfg, t, during, b)
  }

  /** All steps of a poll. A poll whose begin failed takes none; one that claimed nothing, or whose
      fetch failed, ends its transaction at once. */
  function PollSteps(b: BatchId, world: World, poll: Poll, during: seq<Step>, reported: bool): seq<Step> {
    if world.beginFails then []
    else if world.fetchFails then [Begin(b), Rollback(b)]
    else if poll.events == [] then ClaimSteps(b, poll) + [Rollback(b)]
    else ClaimSteps(b, poll) + during + [if poll.applied then Commit(b, reported) else Rollback(b)]
  }

  /** The state after a poll: the database it left, its own and the others' entries, and no open
      batch of its own. */
  ghost predicate Polled(cfg: Config, s: State, f: State, b: BatchId, world: World, poll: Poll) {
    && LockInv(cfg, f) && SnapOf(f) == poll.finish
    && f.calls == s.calls + PollCalls(b, world, poll.events)
    && f.metrics == Plus(Plus(s.metrics, OwnCount(cfg, world, poll.events)), OthersCount(world, poll.events))
    && b !in f.open && (world.beginFails || b in f.fates)
  }

  /** A poll is a run of the system that ends in the database, the calls and the counters which
      `ProcessBatch` promises. */
  lemma PollIsRun(cfg: Config, s: State, b: BatchId, world: World, poll: Poll, during: seq<Step>, reported: bool)
    requires LockInv(cfg, s) && PollOk(cfg, world, poll) && poll.start == SnapOf(s)
    requires b !in s.open && b !in s.fates
    requires poll.events != [] ==> PlaysPoll(cfg, After(cfg, s, ClaimSteps(b, poll)), b, world, poll, during)
    ensures Run(cfg, s, PollSteps(b, world, poll, during, reported))
    ensures Polled(cfg, s, Final(cfg, s, PollSteps(b, world, poll, during, reported)), b, world, poll)
  {
    if world.beginFails {
      IdleCounts(cfg, s, world);
    } else if world.fetchFails {
      IdleCounts(cfg, s, world);
      FailedFetchIsRun(cfg, s, b);
    } else if poll.events == [] {
      IdleCounts(cfg, s, world);
      IdlePollIsRun(cfg, s, b, world, poll);
    } else {
      BusyPollIsRun(cfg, s, b, world, poll, during, reported);
    }
  }

  lemma IdleCounts(cfg: Config, s: State, world: World)
    ensures s.calls == s.calls + PollCalls(0, world, [])
    ensures s.metrics == Plus(Plus(s.metrics, OwnCount(cfg, world, [])), OthersCount(world, []))
  {
  }

  lemma EndIdle(cfg: Config, s: State, b: BatchId)
    requires LockInv(cfg, s) && b in s.open && s.open[b].events == []
    ensures var f := Apply(cfg, s, Rollback(b));
            LockInv(cfg, f) && SnapOf(f) == SnapOf(s) && f.calls == s.calls && f.metrics == s.metrics && b in f.fates
  {
    LockInvKept(cfg, s, Rollback(b));
    RollbackSnap(cfg, s, b);
    assert Ids([]) == {};
    assert LockedIds(s) - {} == LockedIds(s);
  }

  lemma FailedFetchIsRun(cfg: Config, s: State, b: BatchId)
    requires LockInv(cfg, s) && b !in s.open && b !in s.fates
    ensures Run(cfg, s, [Begin(b), Rollback(b)])
    ensures var f := Final(cfg, s, [Begin(b), Rollback(b)]);
            LockInv(cfg, f) && SnapOf(f) == SnapOf(s) && f.calls == s.calls && f.metrics == s.metrics && b in f.fates
  {
    var t := Apply(cfg, s, Begin(b));
    LockInvKept(cfg, s, Begin(b));
    RelayDelivery.BeginLocksNothing(cfg, s, b);
    EndIdle(cfg, t, b);
    TwoSteps(cfg, s, Begin(b), Rollback(b));
  }

  lemma IdlePollIsRun(cfg: Config, s: State, b: BatchId, world: World, poll: Poll)
    requires LockInv(cfg, s) && b !in s.open && b !in s.fates && poll.start == SnapOf(s)
    requires world.Claims() && PollOk(cfg, world, poll) && poll.events == []
    ensures Run(cfg, s, ClaimSteps(b, poll) + [Rollback(b)])
    ensures var f := Final(cfg, s, ClaimSteps(b, poll) + [Rollback(b)]);
            LockInv(cfg, f) && SnapOf(f) == poll.finish && f.calls == s.calls && f.metrics == s.metrics && b in f.fates
  {
    ClaimIsRun(cfg, s, b, world, poll);
    var t := Final(cfg, s, ClaimSteps(b, poll));
    EndIdle(cfg, t, b);
    RunOne(cfg, t, Rollback(b));
    RunConcat(cfg, s, ClaimSteps(b, poll), [Rollback(b)]);
    assert Ids([]) == {};
    assert poll.start.locked + {} == poll.start.locked;
    assert poll.finish == poll.start;
  }

  lemma BusyPollIsRun(cfg: Config, s: State, b: BatchId, world: World, poll: Poll, during: seq<Step>, reported: bool)
    requires LockInv(cfg, s) && b !in s.open && b !in s.fates && poll.start == SnapOf(s)
    requires world.Claims() && PollOk(cfg, world, poll) && poll.events != []
    requires PlaysPoll(cfg, After(cfg, s, ClaimSteps(b, poll)), b, world, poll, during)
    ensures Run(cfg, s, PollSteps(b, world, poll, during, reported))
    ensures Polled(cfg, s, Final(cfg, s, PollSteps(b, world, poll, during, reported)), b, world, poll)
  {
    var claim := ClaimSteps(b, poll);
    var end := if poll.applied then Commit(b, reported) else Rollback(b);
    ClaimIsRun(cfg, s, b, world, poll);
    var t := Final(cfg, s, claim);
    var f := Final(cfg, t, during);
    PublishedLedger(cfg, s, t, b, world, poll, during);
    PollEnds(cfg, t, b, world, poll, during, reported);
    RunConcat(cfg, s, claim, during);
    RunOne(cfg, f, end);
    RunConcat(cfg, s, claim + during, [end]);
  }

  lemma PublishedLedger(cfg: Config, s: State, t: State, b: BatchId, world: World, poll: Poll, during: seq<Step>)
    requires LockInv(cfg, t) && PollOk(cfg, world, poll) && poll.events != []
    requires t.calls == s.calls && t.metrics == s.metrics.(fetched := s.metrics.fetched + |poll.events|)
    requires b in t.open && t.open[b] == Tx(poll.start.clock, true, poll.events, [])
    requires PlaysPoll(cfg, t, b, world, poll, during)
    ensures var f := Final(cfg, t, during);
            && LockInv(cfg, f) && Works(f, b, Tx(poll.start.clock, true, poll.events, Replies(world, poll.events)))
            && f.calls == s.calls + PollCalls(b, world, poll.events)
            && f.metrics == Plus(Plus(s.metrics, OwnCount(cfg, world, poll.events)), OthersCount(world, poll.events))
  {
    hide LockInv;
    hide Ledger;
    var replies := Replies(world, poll.events);
    SharedLedger(cfg, t, during, b, t.open[b]);
    assert [] + replies == replies;
    PollAnswered(cfg, world, poll);
    hide PollOk;
    LedgerIsPoll(cfg, s, t, Final(cfg, t, during), b, world, poll.events);
  }

  lemma PollAnswered(cfg: Config, world: World, poll: Poll)
    requires PollOk(cfg, world, poll)
    ensures |poll.events| <= |world.replies|
  {
  }

  /** The ledger after the publishes is what the worker's methods say about calls and counters. */
  lemma LedgerIsPoll(cfg: Config, s: State, t: State, f: State, b: BatchId, world: World, events: seq<Event>)
    requires |events| <= |world.replies| && events != []
    requires t.calls == s.calls && t.metrics == s.metrics.(fetched := s.metrics.fetched + |events|)
    requires Ledger(cfg, t, f, b, events, Replies(world, events), world.shares)
    ensures f.calls == s.calls + PollCalls(b, world, events)
    ensures f.metrics == Plus(Plus(s.metrics, OwnCount(cfg, world, events)), OthersCount(world, events))
  {
    OwnCountIs(cfg, world, s.metrics, events);
    hide Woven;
    hide CountAll;
    hide Foreign;
  }

  lemma PollEnds(cfg: Config, t: State, b: BatchId, world: World, poll: Poll, during: seq<Step>, reported: bool)
    requires LockInv(cfg, t) && PollOk(cfg, world, poll) && poll.events != []
    requires PlaysPoll(cfg, t, b, world, poll, during) && LockInv(cfg, Final(cfg, t, during))
    requires Works(Final(cfg, t, during), b, Tx(poll.start.clock, true, poll.events, Replies(world, poll.events)))
    ensures var f, end := Final(cfg, t, during), if poll.applied then Commit(b, reported) else Rollback(b);
            && Enabled(cfg, f, end) && LockInv(cfg, Apply(cfg, f, end))
            && SnapOf(Apply(cfg, f, end)) == poll.finish
            && Apply(cfg, f, end).calls == f.calls && Apply(cfg, f, end).metrics == f.metrics
            && b in Apply(cfg, f, end).fates
  {
    var f, end := Final(cfg, t, during), if poll.applied then Commit(b, reported) else Rollback(b);
    if !poll.severed {
      EndOfPoll(cfg, f, b, world, poll, reported);
    }
    LockInvKept(cfg, f, end);
  }

  // ----- The poll loop ---------------------------------------------------------------------

  /** How the system plays one turn of the loop: what happens before its poll, and during it. */
  datatype Leg = Leg(before: seq<Step>, during: seq<Step>, reported: bool)

  function LoopSteps(b: BatchId, world: nat -> World, polls: seq<Poll>, legs: seq<Leg>): seq<Step>
    requires |legs| == |polls|
  {
    if polls == [] then []
    else
      var n := |polls| - 1;
      LoopSteps(b, world, polls[..n], legs[..n])
      + (legs[n].before + PollSteps(b + n, world(n), polls[n], legs[n].during, legs[n].reported))
  }

  /** A run of the others that leads to what the next poll finds. */
  ghost predicate PlaysGap(cfg: Config, f: State, world: nat -> World, n: nat, gap: seq<Step>) {
    if n == 0 then gap == []
    else
      && Run(cfg, f, gap)
      && world(n - 1).after(SnapOf(f)) == SnapOf(Final(cfg, f, gap))
      && world(n - 1).afterShare == TotalShare(cfg, f, gap)
  }

  ghost predicate PlaysLeg(cfg: Config, f: State, b: BatchId, world: nat -> World, n: nat, poll: Poll, leg: Leg) {
    && PlaysGap(cfg, f, world, n, leg.before)
    && var g := After(cfg, f, leg.before);
       && b !in g.open && b !in g.fates
       && (poll.events != [] ==>
             PlaysPoll(cfg, After(cfg, g, ClaimSteps(b, poll)), b, world(n), poll, leg.during))
  }

  ghost predicate PlaysLoop(cfg: Config, s: State, b: BatchId, world: nat -> World, polls: seq<Poll>, legs: seq<Leg>)
    requires |legs| == |polls|
    decreases |polls|
  {
    polls == [] ||
    var n := |polls| - 1;
    && PlaysLoop(cfg, s, b, world, polls[..n], legs[..n])
    && PlaysLeg(cfg, After(cfg, s, LoopSteps(b, world, polls[..n], legs[..n])), b + n, world, n, polls[n], legs[n])
  }

  lemma GapIsRun(cfg: Config, f: State, world: nat -> World, polls: seq<Poll>, start: Snapshot, gap: seq<Step>)
    requires LockInv(cfg, f) && SnapOf(f) == LoopEnd(polls, start) && PlaysGap(cfg, f, world, |polls|, gap)
    ensures Run(cfg, f, gap)
    ensures var g := Final(cfg, f, gap);
            && LockInv(cfg, g) && SnapOf(g) == NextStart(world, polls, start)
            && g.calls == f.calls + GapShare(world, |polls|).calls
            && g.metrics == Plus(f.metrics, GapShare(world, |polls|).counters)
  {
    hide LockInv;
    if polls == [] {
      assert f.calls + [] == f.calls;
    } else {
      RunKeepsLocks(cfg, f, gap);
      AnyRunIsAllowed(cfg, f, gap, world(|polls| - 1).after);
      TotalAddsUp(cfg, f, gap);
    }
  }

  lemma {:induction false} FatesStay(cfg: Config, s: State, steps: seq<Step>)
    requires Run(cfg, s, steps)
    ensures s.fates.Keys <= Final(cfg, s, steps).fates.Keys
    decreases |steps|
  {
    if steps != [] {
      FatesStay(cfg, Apply(cfg, s, steps[0]), steps[1..]);
    }
  }

  /** Each batch that the first `n` polls began has ended. */
  ghost predicate BatchesEnded(f: State, b: BatchId, world: nat -> World, n: nat) {
    forall k: nat :: k < n && !world(k).beginFails ==> b + k in f.fates
  }

  lemma EndedMore(f: State, f': State, b: BatchId, world: nat -> World, n: nat)
    requires BatchesEnded(f, b, world, n) && f.fates.Keys <= f'.fates.Keys
    requires world(n).beginFails || b + n in f'.fates
    ensures BatchesEnded(f', b, world, n + 1)
  {
  }

  lemma NoneBegun(f: State, b: BatchId, world: nat -> World)
    ensures BatchesEnded(f, b, world, 0)
  {
  }

  /** One more turn. */
  lemma LegIsRun(cfg: Config, s: State, f: State, b: BatchId, world: nat -> World, polls: seq<Poll>, poll: Poll,
                 start: Snapshot, leg: Leg)
    requires LockInv(cfg, f) && SnapOf(f) == LoopEnd(polls, start)
    requires Told(cfg, s.calls, s.metrics, f.calls, f.metrics, b, world, polls)
    requires PollOk(cfg, world(|polls|), poll) && poll.start == NextStart(world, polls, start)
    requires PlaysLeg(cfg, f, b + |polls|, world, |polls|, poll, leg) && BatchesEnded(f, b, world, |polls|)
    ensures var steps := leg.before + PollSteps(b + |polls|, world(|polls|), poll, leg.during, leg.reported);
            && Run(cfg, f, steps)
            && var f' := Final(cfg, f, steps);
               && LockInv(cfg, f') && SnapOf(f') == poll.finish
               && Told(cfg, s.calls, s.metrics, f'.calls, f'.metrics, b, world, polls + [poll])
               && BatchesEnded(f', b, world, |polls| + 1)
  {
    hide LockInv;
    hide PollOk;
    hide PlaysPoll;
    hide PollSteps;
    hide BatchesEnded;
    hide Run;
    hide Final;
    var n := |polls|;
    var steps := PollSteps(b + n, world(n), poll, leg.during, leg.reported);
    GapIsRun(cfg, f, world, polls, start, leg.before);
    PollIsRun(cfg, Final(cfg, f, leg.before), b + n, world(n), poll, leg.during, leg.reported);
    RunConcat(cfg, f, leg.before, steps);
    FatesStay(cfg, f, leg.before + steps);
    EndedMore(f, Final(cfg, f, leg.before + steps), b, world, n);
    ToldMore(cfg, s.calls, s.metrics, f.calls, f.metrics, b, world, polls, poll);
    hide Told;
  }

  /** A worker's whole poll loop, with anything the others do during and between its polls, is one
      run of the system, and it ends in the database, the calls and the counters that `RunLoop`
      promises, with each batch it began committed or aborted. */
  lemma {:induction false} LoopIsRun(cfg: Config, s: State, b: BatchId, world: nat -> World, polls: seq<Poll>,
                                     legs: seq<Leg>)
    requires LockInv(cfg, s) && PollsOk(cfg, world, polls, SnapOf(s))
    requires |legs| == |polls| && PlaysLoop(cfg, s, b, world, polls, legs)
    ensures Run(cfg, s, LoopSteps(b, world, polls, legs))
    ensures var f := Final(cfg, s, LoopSteps(b, world, polls, legs));
            && LockInv(cfg, f) && SnapOf(f) == LoopEnd(polls, SnapOf(s))
            && Told(cfg, s.calls, s.metrics, f.calls, f.metrics, b, world, polls)
            && BatchesEnded(f, b, world, |polls|)
    decreases |polls|
  {
    hide LockInv;
    hide PollOk;
    hide PlaysLeg;
    hide Told;
    hide BatchesEnded;
    hide PollSteps;
    hide NextStart;
    hide SnapOf;
    hide PlaysGap;
    hide Apply;
    hide Enabled;
    hide After;
    if polls == [] {
      NothingTold(cfg, s.calls, s.metrics, b, world);
      NoneBegun(s, b, world);
    } else {
      var n := |polls| - 1;
      LoopIsRun(cfg, s, b, world, polls[..n], legs[..n]);
      var front := LoopSteps(b, world, polls[..n], legs[..n]);
      AfterIsFinal(cfg, s, front);
      LegIsRun(cfg, s, Final(cfg, s, front), b, world, polls[..n], polls[n], SnapOf(s), legs[n]);
      assert polls == polls[..n] + [polls[n]];
      RunConcat(cfg, s, front,
                legs[n].before + PollSteps(b + n, world(n), polls[n], legs[n].during, legs[n].reported));
    }
  }

  lemma NothingTold(cfg: Config, calls: seq<Call>, m: Counters, b: BatchId, world: nat -> World)
    ensures Told(cfg, calls, m, calls, m, b, world, [])
  {
    assert LoopCalls(b, world, []) == [];
    assert calls + [] == calls;
  }

  // ----- Such runs exist -------------------------------------------------------------------

  function Nones(n: nat): seq<Share> {
    seq(n, _ => NONE)
  }

  /** A batch that publishes alone sees no shares of others. */
  lemma {:induction false} SharesAlone(cfg: Config, s: State, steps: seq<Step>, b: BatchId)
    requires Run(cfg, s, steps) && forall i :: 0 <= i < |steps| ==> steps[i].Publish? && steps[i].batch == b
    ensures SharesOf(cfg, s, steps, b) == Nones(|steps| + 1)
    decreases |steps|
  {
    hide SharesOf;
    if steps == [] {
      assert SharesOf(cfg, s, [], b) == [NONE] by {
        NoShares(cfg, s, b);
      }
    } else {
      var n := |steps| - 1;
      SharesStep(cfg, s, steps, b);
      SharesAlone(cfg, s, steps[..n], b);
      assert Nones(n + 1) + [NONE] == Nones(n + 2);
    }
  }

  lemma NoShares(cfg: Config, s: State, b: BatchId)
    ensures SharesOf(cfg, s, [], b) == [NONE]
  {
  }

  lemma {:induction false} OnlyPublishes(b: BatchId, replies: seq<Reply>)
    ensures |PublishSteps(b, replies)| == |replies|
    ensures forall i :: 0 <= i < |replies| ==>
              PublishSteps(b, replies)[i].Publish? && PublishSteps(b, replies)[i].batch == b
  {
    if replies != [] {
      OnlyPublishes(b, replies[1..]);
    }
  }

  /** For any answers at fresh positions, the batch's own publishes alone play a poll during which
      nobody else moves. */
  lemma AlonePlays(cfg: Config, t: State, b: BatchId, world: World, poll: Poll)
    requires LockInv(cfg, t) && b in t.open && t.open[b] == Tx(poll.start.clock, true, poll.events, [])
    requires PollOk(cfg, world, poll) && !poll.severed && poll.before == SnapOf(t)
    requires FreshPositions(t.calls, b, poll.events, Replies(world, poll.events))
    requires world.shares == Nones(|poll.events| + 1)
    ensures PlaysPoll(cfg, t, b, world, poll, PublishSteps(b, Replies(world, poll.events)))
  {
    hide PollOk;
    hide LockInv;
    hide SharesOf;
    hide SnapOf;
    hide FreshPositions;
    hide Published;
    hide Spares;
    var replies := Replies(world, poll.events);
    AnswersInFull(cfg, world, poll);
    PublishesAreRun(cfg, t, b, replies);
    OnlyPublishes(b, replies);
    LeavesBatch(PublishSteps(b, replies), b);
    SharesAlone(cfg, t, PublishSteps(b, replies), b);
    PublishedSnap(cfg, t, b, replies);
  }

  lemma PublishedSnap(cfg: Config, t: State, b: BatchId, replies: seq<Reply>)
    requires b in t.open && |replies| <= |t.open[b].events|
    ensures SnapOf(Published(cfg, t, b, replies)) == SnapOf(t) && b in Published(cfg, t, b, replies).open
  {
    var f := Published(cfg, t, b, replies);
    forall id ensures id in LockedIds(f) <==> id in LockedIds(t) {
      if c :| c in t.open && id in Ids(t.open[c].events) {
        assert f.open[c].events == t.open[c].events;
      }
      if c :| c in f.open && id in Ids(f.open[c].events) {
        assert f.open[c].events == t.open[c].events;
      }
    }
  }

  /** The same when the session is lost at the end of the publishes: the poll plays, too. */
  lemma SeveredPlays(cfg: Config, t: State, b: BatchId, world: World, poll: Poll)
    requires LockInv(cfg, t) && b in t.open && t.open[b] == Tx(poll.start.clock, true, poll.events, [])
    requires PollOk(cfg, world, poll) && poll.severed && poll.before == Unlocked(SnapOf(t), Ids(poll.events))
    requires FreshPositions(t.calls, b, poll.events, Replies(world, poll.events))
    requires world.shares == Nones(|poll.events| + 1)
    ensures PlaysPoll(cfg, t, b, world, poll, PublishSteps(b, Replies(world, poll.events)) + [Sever(b)])
  {
    hide PollOk;
    hide LockInv;
    hide SharesOf;
    hide SnapOf;
    hide FreshPositions;
    hide Published;
    hide Spares;
    var replies := Replies(world, poll.events);
    AnswersInFull(cfg, world, poll);
    var steps := PublishSteps(b, replies);
    PublishesAreRun(cfg, t, b, replies);
    OnlyPublishes(b, replies);
    SharesAlone(cfg, t, steps, b);
    PublishedSnap(cfg, t, b, replies);
    RunKeepsLocks(cfg, t, steps);
    PublishedClaim(cfg, t, b, replies);
    SeverLast(cfg, t, steps, b);
    RepliesToAppend(steps, Sever(b), b);
    assert replies + [] == replies;
    LeavesBatch(steps, b);
  }

  lemma AnswersInFull(cfg: Config, world: World, poll: Poll)
    requires PollOk(cfg, world, poll)
    ensures |Replies(world, poll.events)| == |poll.events|
  {
  }

  lemma PublishedClaim(cfg: Config, t: State, b: BatchId, replies: seq<Reply>)
    requires b in t.open && |replies| <= |t.open[b].events|
    ensures b in Published(cfg, t, b, replies).open
    ensures Published(cfg, t, b, replies).open[b].events == t.open[b].events
  {
  }

  lemma LeavesBatch(steps: seq<Step>, b: BatchId)
    requires forall i :: 0 <= i < |steps| ==> steps[i].Publish? && steps[i].batch == b
    ensures Leaves(steps, b) && Leaves(steps + [Sever(b)], b)
  {
  }

  lemma SeverLast(cfg: Config, t: State, steps: seq<Step>, b: BatchId)
    requires Run(cfg, t, steps) && b in Final(cfg, t, steps).open && LockInv(cfg, Final(cfg, t, steps))
    ensures Run(cfg, t, steps + [Sever(b)])
    ensures var f, g := Final(cfg, t, steps), Final(cfg, t, steps + [Sever(b)]);
            && b !in g.open && SnapOf(g) == Unlocked(SnapOf(f), Ids(f.open[b].events))
            && SharesOf(cfg, t, steps + [Sever(b)], b) == SharesOf(cfg, t, steps, b)
  {
    hide SharesOf;
    hide MoreShares;
    hide Apply;
    hide Enabled;
    hide LockInv;
    hide SnapOf;
    var f := Final(cfg, t, steps);
    SeverSnap(cfg, f, b);
    RunOne(cfg, f, Sever(b));
    RunConcat(cfg, t, steps, [Sever(b)]);
    assert (steps + [Sever(b)])[..|steps|] == steps;
    SharesStep(cfg, t, steps + [Sever(b)], b);
    SeverShares(cfg, f, b, SharesOf(cfg, t, steps, b));
  }

  lemma SeverSnap(cfg: Config, f: State, b: BatchId)
    requires LockInv(cfg, f) && b in f.open
    ensures Enabled(cfg, f, Sever(b)) && b !in Apply(cfg, f, Sever(b)).open
    ensures SnapOf(Apply(cfg, f, Sever(b))) == Unlocked(SnapOf(f), Ids(f.open[b].events))
  {
    EndUnlocks(cfg, f, Apply(cfg, f, Sever(b)), b);
  }

  lemma SeverShares(cfg: Config, f: State, b: BatchId, shares: seq<Share>)
    requires Enabled(cfg, f, Sever(b)) && |shares| >= 1
    ensures MoreShares(cfg, f, Sever(b), b, shares) == shares
  {
    var last := shares[|shares| - 1];
    assert last.calls + [] == last.calls;
    assert Join(last, NONE) == last;
  }
}
