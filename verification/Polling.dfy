/** One worker of the polling relay: claim, publish, commit, against a table that other
    sessions keep changing. */
module Polling {
  import opened Wrappers
  import opened Backoff
  import opened Outbox
  import opened RelaySystem
  import opened OutboxRepo
  import opened Metrics

  // ----- What a whole batch adds to the history --------------------------------------------

  /** The publisher calls of a batch. */
  function CallsOf(b: BatchId, events: seq<Event>, replies: seq<Reply>): seq<Call>
    requires |replies| <= |events|
  {
    if replies == [] then []
    else
      var n := |replies| - 1;
      CallsOf(b, events, replies[..n]) + [Call(events[n], b, replies[n])]
  }

  /** The counters after a batch's publishes. */
  function CountAll(cfg: Config, m: Counters, events: seq<Event>, replies: seq<Reply>): Counters
    requires |replies| <= |events|
  {
    if replies == [] then m
    else
      var n := |replies| - 1;
      Count(cfg, CountAll(cfg, m, events, replies[..n]), events[n], replies[n])
  }

  // ----- Sharing the process with other workers --------------------------------------------

  function Plus(a: Counters, b: Counters): Counters {
    Counters(a.fetched + b.fetched, a.processed + b.processed, a.failed + b.failed, a.dead + b.dead,
             a.published + b.published)
  }

  const NOTHING := Counters(0, 0, 0, 0, 0)

  /** What the other workers of the process add to the shared counters and publisher between two
      calls of ours. */
  datatype Share = Share(counters: Counters, calls: seq<Call>)

  function Nth(shares: seq<Share>, i: nat): Share {
    if i < |shares| then shares[i] else Share(NOTHING, [])
  }

  /** The others' part of the counters, over the first `n` gaps. */
  function Foreign(shares: seq<Share>, n: nat): Counters {
    if n == 0 then NOTHING else Plus(Foreign(shares, n - 1), Nth(shares, n - 1).counters)
  }

  /** The calls of everybody while a batch is published: the others' before each of its own. */
  function Woven(b: BatchId, events: seq<Event>, replies: seq<Reply>, shares: seq<Share>): seq<Call>
    requires |replies| <= |events|
  {
    if replies == [] then []
    else
      var n := |replies| - 1;
      Woven(b, events, replies[..n], shares) + Nth(shares, n).calls + [Call(events[n], b, replies[n])]
  }

  /** The calls of one batch among those of all workers. */
  function CallsBy(calls: seq<Call>, b: BatchId): seq<Call> {
    if calls == [] then []
    else
      var c := calls[|calls| - 1];
      CallsBy(calls[..|calls| - 1], b) + if c.batch == b then [c] else []
  }

  lemma {:induction false} CallsByAppend(calls: seq<Call>, more: seq<Call>, b: BatchId)
    ensures CallsBy(calls + more, b) == CallsBy(calls, b) + CallsBy(more, b)
  {
    if more == [] {
      assert calls + more == calls;
    } else {
      var n := |more| - 1;
      CallsByAppend(calls, more[..n], b);
      assert (calls + more)[..|calls + more| - 1] == calls + more[..n];
      assert CallsBy(calls + more, b) == CallsBy(calls + more[..n], b) + if more[n].batch == b then [more[n]] else [];
    }
  }

  lemma {:induction false} NoCallsBy(calls: seq<Call>, b: BatchId)
    requires forall c :: c in calls ==> c.batch != b
    ensures CallsBy(calls, b) == []
  {
    if calls != [] {
      assert calls[|calls| - 1] in calls;
      NoCallsBy(calls[..|calls| - 1], b);
    }
  }

  /** However the workers interleave, a batch publishes exactly its own events, once each and in
      claim order. */
  lemma {:induction false} OwnCalls(b: BatchId, events: seq<Event>, replies: seq<Reply>, shares: seq<Share>)
    requires |replies| <= |events|
    requires forall i :: 0 <= i < |replies| ==> forall c :: c in Nth(shares, i).calls ==> c.batch != b
    ensures CallsBy(Woven(b, events, replies, shares), b) == CallsOf(b, events, replies)
  {
    if replies != [] {
      var n := |replies| - 1;
      OwnCalls(b, events, replies[..n], shares);
      var own := Call(events[n], b, replies[n]);
      CallsByAppend(Woven(b, events, replies[..n], shares) + Nth(shares, n).calls, [own], b);
      CallsByAppend(Woven(b, events, replies[..n], shares), Nth(shares, n).calls, b);
      NoCallsBy(Nth(shares, n).calls, b);
      assert CallsBy([own], b) == [own] by {
        assert [own][..0] == [];
      }
    }
  }

  /** Failures that spend the last attempt. */
  function ExhaustedCount(cfg: Config, events: seq<Event>, replies: seq<Reply>): nat
    requires |replies| <= |events|
  {
    if replies == [] then 0
    else
      var n := |replies| - 1;
      ExhaustedCount(cfg, events, replies[..n])
      + if !replies[n].Acked? && events[n].attempts + 1 >= cfg.maxAttempts then 1 else 0
  }

  /** At batch end every claimed event is counted once, as processed and published or as
      failed, and each failure that parks its row DEAD also as dead. */
  lemma {:induction false} BatchCounted(cfg: Config, m: Counters, events: seq<Event>, replies: seq<Reply>)
    requires |replies| <= |events|
    ensures var m' := CountAll(cfg, m, events, replies);
            && m'.fetched == m.fetched
            && m'.processed == m.processed + |SentRefs(events, replies)|
            && m'.published == m.published + |SentRefs(events, replies)|
            && m'.failed == m.failed + |FailedIds(events, replies)|
            && m'.dead == m.dead + ExhaustedCount(cfg, events, replies)
    ensures |SentRefs(events, replies)| + |FailedIds(events, replies)| == |replies|
  {
    if replies != [] {
      BatchCounted(cfg, m, events, replies[..|replies| - 1]);
    }
  }

  predicate Subsequence<T(==)>(a: seq<T>, b: seq<T>) {
    if a == [] then true
    else if b == [] then false
    else if a[|a| - 1] == b[|b| - 1] then Subsequence(a[..|a| - 1], b[..|b| - 1])
    else Subsequence(a, b[..|b| - 1])
  }

  /** Ids of the first `n` claimed events, in claim order. */
  function ClaimOrder(events: seq<Event>, n: nat): (ids: seq<EventId>)
    requires n <= |events|
  {
    if n == 0 then [] else ClaimOrder(events, n - 1) + [events[n - 1].id]
  }

  function RefIds(sent: seq<SentRef>): seq<EventId> {
    if sent == [] then [] else RefIds(sent[..|sent| - 1]) + [sent[|sent| - 1].event]
  }

  lemma SubsequenceTake<T>(a: seq<T>, b: seq<T>, x: T)
    requires Subsequence(a, b)
    ensures Subsequence(a + [x], b + [x])
  {
    assert (a + [x])[..|a|] == a && (b + [x])[..|b|] == b;
  }

  lemma SubsequenceSkip<T>(a: seq<T>, b: seq<T>, x: T)
    requires Subsequence(a, b) && (a != [] ==> a[|a| - 1] != x)
    ensures Subsequence(a, b + [x])
  {
    assert (b + [x])[..|b|] == b;
  }

  lemma RefIdsSnoc(sent: seq<SentRef>, ref: SentRef)
    ensures RefIds(sent + [ref]) == RefIds(sent) + [ref.event]
  {
    assert (sent + [ref])[..|sent|] == sent;
  }

  /** The last reply extends one half of the split and leaves the other. */
  lemma SplitLast(events: seq<Event>, replies: seq<Reply>)
    requires 0 < |replies| <= |events|
    ensures var n := |replies| - 1;
            var sent, failed := RefIds(SentRefs(events, replies[..n])), FailedIds(events, replies[..n]);
            if replies[n].Acked? then
              RefIds(SentRefs(events, replies)) == sent + [events[n].id] && FailedIds(events, replies) == failed
            else
              RefIds(SentRefs(events, replies)) == sent && FailedIds(events, replies) == failed + [events[n].id]
  {
    var n := |replies| - 1;
    var sent, failed := SentRefs(events, replies[..n]), FailedIds(events, replies[..n]);
    if replies[n].Acked? {
      RefIdsSnoc(sent, SentRef(events[n].id, replies[n].partition, replies[n].offset));
      assert failed + [] == failed;
    } else {
      assert sent + [] == sent;
    }
  }

  /** Both halves of the split keep claim order. */
  lemma {:induction false} SplitKeepsOrder(events: seq<Event>, replies: seq<Reply>)
    requires |replies| <= |events| && DistinctIds(events)
    ensures Subsequence(RefIds(SentRefs(events, replies)), ClaimOrder(events, |replies|))
    ensures Subsequence(FailedIds(events, replies), ClaimOrder(events, |replies|))
  {
    if replies != [] {
      var n := |replies| - 1;
      var id, front := events[n].id, ClaimOrder(events, n);
      SplitKeepsOrder(events, replies[..n]);
      SplitForeign(events, replies[..n], id);
      SplitLast(events, replies);
      if replies[n].Acked? {
        SubsequenceTake(RefIds(SentRefs(events, replies[..n])), front, id);
        SubsequenceSkip(FailedIds(events, replies[..n]), front, id);
      } else {
        SubsequenceTake(FailedIds(events, replies[..n]), front, id);
        SubsequenceSkip(RefIds(SentRefs(events, replies[..n])), front, id);
      }
    }
  }

  /** Together the halves hold exactly the processed events, each as often as it was claimed. */
  lemma {:induction false} SplitCovers(events: seq<Event>, replies: seq<Reply>)
    requires |replies| <= |events|
    ensures multiset(RefIds(SentRefs(events, replies)) + FailedIds(events, replies))
            == multiset(ClaimOrder(events, |replies|))
  {
    if replies != [] {
      SplitCovers(events, replies[..|replies| - 1]);
      SplitLast(events, replies);
    }
  }

  // ----- The worker ------------------------------------------------------------------------

  /** `EventPublisher`: the calls all workers made, with the broker's answers. */
  class Publisher {
    var calls: seq<Call>

    constructor ()
      ensures calls == []
    {
      calls := [];
    }

    /** `reply` is what the broker does; a lost acknowledgement is an error to the caller. */
    method Publish(b: BatchId, e: Event, reply: Reply) returns (partition: int, offset: int, failed: bool)
      modifies this
      ensures calls == old(calls) + [Call(e, b, reply)]
      ensures failed == !reply.Acked?
      ensures !failed ==> partition == reply.partition && offset == reply.offset
    {
      calls := calls + [Call(e, b, reply)];
      match reply {
        case Acked(p, o) => partition, offset, failed := p, o, false;
        case _ => partition, offset, failed := 0, 0, true;
      }
    }
  }

  /** The other workers run for a while; their errors are failed publishes, too. */
  method LetWorkersRun(pub: Publisher, metrics: Metrics, share: Share)
    modifies pub, metrics
    ensures pub.calls == old(pub.calls) + share.calls
    ensures metrics.Value() == Plus(old(metrics.Value()), share.counters)
    ensures forall kind: string :: metrics.OtherErrors(kind) == old(metrics.OtherErrors(kind))
  {
    pub.calls := pub.calls + share.calls;
    metrics.eventsFetched := metrics.eventsFetched + share.counters.fetched;
    metrics.eventsProcessed := metrics.eventsProcessed + share.counters.processed;
    metrics.eventsFailed := metrics.eventsFailed + share.counters.failed;
    metrics.eventsDead := metrics.eventsDead + share.counters.dead;
    metrics.kafkaPublished := metrics.kafkaPublished + share.counters.published;
    metrics.errors := metrics.errors["publish" := metrics.ErrorCount("publish") + share.counters.failed];
  }

  /** The environment of one poll: which calls fail, what the broker answers, whether the session
      is lost while the worker publishes, what other sessions do to the database during the
      publishes and after the poll, and what the other workers add in each gap and after the poll. */
  datatype World = World(beginFails: bool, fetchFails: bool, replies: seq<Reply>, severed: bool, fault: Fault,
                         during: Others, after: Others, shares: seq<Share>, afterShare: Share)
  {
    predicate Claims() {
      !beginFails && !fetchFails
    }
  }

  /** What one poll did: the database it started from, its claim, the database the moment before
      the outcome was written, whether the session was lost by then, whether the outcome was
      written, and the database it left. */
  datatype Poll = Poll(start: Snapshot, events: seq<Event>, before: Snapshot, severed: bool, applied: bool,
                       finish: Snapshot)

  /** The answers the claim's publishes get. */
  function Replies(world: World, events: seq<Event>): (replies: seq<Reply>) {
    if |events| <= |world.replies| then world.replies[..|events|] else world.replies
  }

  /** The oldest eligible unlocked rows, as the table has them; nothing if a call failed. */
  ghost predicate ClaimOk(cfg: Config, world: World, start: Snapshot, events: seq<Event>) {
    if world.Claims() then ClaimedFrom(cfg, start, events) else events == []
  }

  /** The database when the outcome is about to be written. */
  function BeforeOutcome(world: World, start: Snapshot, events: seq<Event>): Snapshot {
    if events == [] then start
    else if world.severed then Interfere(world.during, start, {})
    else Interfere(world.during, start.(locked := start.locked + Ids(events)), Ids(events))
  }

  /** Each claimed row has its own outcome and no other row changed. */
  ghost predicate Written(before: Table, after: Table, events: seq<Event>, replies: seq<Reply>,
                          now: int, maxAttempts: nat)
  {
    && |replies| == |events|
    && after.Keys == before.Keys
    && (forall i :: 0 <= i < |events| && events[i].id in before ==>
          after[events[i].id] == Outcome(before[events[i].id], events[i].id, replies[i], now, maxAttempts))
    && (forall id :: id in before && id !in Ids(events) ==> after[id] == before[id])
  }

  /** Exactly what a poll does. It claims what the claim predicate says. If the session lives, the
      rows are still as claimed when their outcomes are written; the outcomes are written exactly
      when the server lets the commit through and they fit; and whatever happens, the locks are
      gone and nothing else has changed. */
  ghost predicate PollOk(cfg: Config, world: World, p: Poll) {
    var replies := Replies(world, p.events);
    && ClaimOk(cfg, world, p.start, p.events)
    && |replies| == |p.events|
    && p.severed == (world.severed && p.events != [])
    && p.before == BeforeOutcome(world, p.start, p.events)
    && (!p.severed ==> AllHeld(cfg, p.before.rows, p.start.clock, p.events))
    && (p.applied <==>
          && p.events != [] && !p.severed && world.fault.LetsCommit()
          && OutcomeFits(p.before.rows, SentRefs(p.events, replies), FailedIds(p.events, replies), p.start.clock,
                         cfg.maxAttempts))
    && (if p.applied then Written(p.before.rows, p.finish.rows, p.events, replies, p.start.clock, cfg.maxAttempts)
        else p.finish.rows == p.before.rows)
    && p.finish.locked == (if p.severed then p.before.locked else p.before.locked - Ids(p.events))
    && p.finish.clock == p.before.clock
  }

  /** Success is reported exactly when there was nothing to do or the outcome is written and the
      reply to the commit arrived. */
  predicate Reported(world: World, p: Poll) {
    world.Claims() && (p.events == [] || (p.applied && !world.fault.ReplyLost?))
  }

  /** The counters of one poll of this worker alone. */
  function OwnCount(cfg: Config, world: World, events: seq<Event>): Counters {
    if |events| <= |world.replies|
    then CountAll(cfg, NOTHING.(fetched := |events|), events, world.replies[..|events|])
    else NOTHING
  }

  /** What the other workers add to the counters during one poll. */
  function OthersCount(world: World, events: seq<Event>): Counters {
    if events == [] then NOTHING else Foreign(world.shares, |events| + 1)
  }

  /** All calls made during one poll. */
  function PollCalls(b: BatchId, world: World, events: seq<Event>): seq<Call> {
    if events == [] || |world.replies| < |events| then []
    else Woven(b, events, world.replies[..|events|], world.shares) + Nth(world.shares, |events|).calls
  }

  lemma CountPlus(cfg: Config, m: Counters, c: Counters, e: Event, reply: Reply)
    ensures Count(cfg, Plus(m, c), e, reply) == Plus(Count(cfg, m, e, reply), c)
  {
  }

  lemma {:induction false} CountAllPlus(cfg: Config, m: Counters, c: Counters, events: seq<Event>, replies: seq<Reply>)
    requires |replies| <= |events|
    ensures CountAll(cfg, Plus(m, c), events, replies) == Plus(CountAll(cfg, m, events, replies), c)
  {
    if replies != [] {
      var n := |replies| - 1;
      CountAllPlus(cfg, m, c, events, replies[..n]);
      CountPlus(cfg, CountAll(cfg, m, events, replies[..n]), c, events[n], replies[n]);
    }
  }

  lemma PlusGap(m: Counters, shares: seq<Share>, n: nat)
    ensures Plus(Plus(m, Foreign(shares, n)), Nth(shares, n).counters) == Plus(m, Foreign(shares, n + 1))
  {
  }

  /** What one more turn of the publish loop adds. */
  lemma OneMoreReply(cfg: Config, m: Counters, b: BatchId, events: seq<Event>, replies: seq<Reply>,
                     shares: seq<Share>, i: nat)
    requires i < |replies| <= |events|
    ensures SentRefs(events, replies[..i + 1])
            == SentRefs(events, replies[..i])
               + if replies[i].Acked? then [SentRef(events[i].id, replies[i].partition, replies[i].offset)] else []
    ensures FailedIds(events, replies[..i + 1])
            == FailedIds(events, replies[..i]) + if replies[i].Acked? then [] else [events[i].id]
    ensures Woven(b, events, replies[..i + 1], shares)
            == Woven(b, events, replies[..i], shares) + Nth(shares, i).calls + [Call(events[i], b, replies[i])]
    ensures CountAll(cfg, m, events, replies[..i + 1])
            == Count(cfg, CountAll(cfg, m, events, replies[..i]), events[i], replies[i])
  {
    assert replies[..i + 1][..i] == replies[..i];
  }

  /** What the publish loop has done after the first `i` events: the two lists, everybody's calls
      and everybody's counts. */
  ghost predicate Progress(cfg: Config, b: BatchId, events: seq<Event>, replies: seq<Reply>, shares: seq<Share>, i: nat,
                           sent: seq<SentRef>, failIds: seq<EventId>, calls: seq<Call>, m: Counters,
                           calls': seq<Call>, m': Counters)
    requires i <= |replies| <= |events|
  {
    && sent == SentRefs(events, replies[..i]) && failIds == FailedIds(events, replies[..i])
    && calls' == calls + Woven(b, events, replies[..i], shares)
    && m' == Plus(CountAll(cfg, m, events, replies[..i]), Foreign(shares, i))
  }

  lemma OneMoreProgress(cfg: Config, b: BatchId, events: seq<Event>, replies: seq<Reply>, shares: seq<Share>, i: nat,
                        sent: seq<SentRef>, failIds: seq<EventId>, calls: seq<Call>, m: Counters,
                        calls': seq<Call>, m': Counters)
    requires i < |replies| <= |events|
    requires Progress(cfg, b, events, replies, shares, i, sent, failIds, calls, m, calls', m')
    ensures var e, reply, share := events[i], replies[i], Nth(shares, i);
            Progress(cfg, b, events, replies, shares, i + 1,
                     sent + (if reply.Acked? then [SentRef(e.id, reply.partition, reply.offset)] else []),
                     failIds + (if reply.Acked? then [] else [e.id]), calls, m,
                     calls' + share.calls + [Call(e, b, reply)], Count(cfg, Plus(m', share.counters), e, reply))
  {
    hide Count;
    var count := CountAll(cfg, m, events, replies[..i]);
    OneMoreReply(cfg, m, b, events, replies, shares, i);
    PlusGap(count, shares, i);
    CountPlus(cfg, count, Foreign(shares, i + 1), events[i], replies[i]);
    hide SentRefs;
    hide FailedIds;
    hide CountAll;
    hide Woven;
    hide Foreign;
    hide Plus;
  }

  lemma CountedFailures(cfg: Config, m: Counters, e: Event, reply: Reply)
    ensures Count(cfg, m, e, reply).failed == m.failed + if reply.Acked? then 0 else 1
  {
  }

  class PollingRelay {
    const cfg: Config
    const db: Database
    const pub: Publisher
    const metrics: Metrics

    constructor (cfg: Config, db: Database, pub: Publisher, metrics: Metrics)
      ensures this.cfg == cfg && this.db == db && this.pub == pub && this.metrics == metrics
    {
      this.cfg, this.db, this.pub, this.metrics := cfg, db, pub, metrics;
    }

    /** One turn of the publish loop. */
    method PublishOne(b: BatchId, e: Event, reply: Reply, sent: seq<SentRef>, failIds: seq<EventId>)
      returns (sent': seq<SentRef>, failIds': seq<EventId>)
      modifies pub, metrics
      ensures sent' == sent + if reply.Acked? then [SentRef(e.id, reply.partition, reply.offset)] else []
      ensures failIds' == failIds + if reply.Acked? then [] else [e.id]
      ensures pub.calls == old(pub.calls) + [Call(e, b, reply)]
      ensures metrics.Value() == Count(cfg, old(metrics.Value()), e, reply)
      ensures forall kind: string ::
                metrics.ErrorCount(kind)
                == old(metrics.ErrorCount(kind)) + if kind == "publish" && !reply.Acked? then 1 else 0
    {
      sent', failIds' := sent, failIds;
      var partition, offset, failed := pub.Publish(b, e, reply);
      if failed {
        failIds' := failIds' + [e.id];
        metrics.IncrementErrors("publish");
        if e.attempts + 1 >= cfg.maxAttempts {
          metrics.IncrementDead();
        }
      } else {
        sent' := sent' + [SentRef(e.id, partition, offset)];
        metrics.IncrementSuccess();
      }
    }

    /** The next turn of the loop, after the other workers had theirs. */
    method PublishNext(b: BatchId, events: seq<Event>, replies: seq<Reply>, shares: seq<Share>, i: nat,
                       sent: seq<SentRef>, failIds: seq<EventId>, ghost calls: seq<Call>, ghost m: Counters)
      returns (sent': seq<SentRef>, failIds': seq<EventId>)
      requires i < |replies| <= |events|
      requires Progress(cfg, b, events, replies, shares, i, sent, failIds, calls, m, pub.calls, metrics.Value())
      modifies pub, metrics
      ensures Progress(cfg, b, events, replies, shares, i + 1, sent', failIds', calls, m, pub.calls, metrics.Value())
      ensures forall kind: string :: metrics.OtherErrors(kind) == old(metrics.OtherErrors(kind))
    {
      hide Progress;
      hide Count;
      OneMoreProgress(cfg, b, events, replies, shares, i, sent, failIds, calls, m, pub.calls, metrics.Value());
      LetWorkersRun(pub, metrics, Nth(shares, i));
      CountedFailures(cfg, Plus(old(metrics.Value()), Nth(shares, i).counters), events[i], replies[i]);
      sent', failIds' := PublishOne(b, events[i], replies[i], sent, failIds);
    }

    /** The publish loop: every claimed event is published once, in claim order, while the other
        workers publish and count too. */
    method PublishAll(b: BatchId, events: seq<Event>, replies: seq<Reply>, shares: seq<Share>)
      returns (sent: seq<SentRef>, failIds: seq<EventId>)
      requires |replies| == |events|
      modifies pub, metrics
      ensures sent == SentRefs(events, replies) && failIds == FailedIds(events, replies)
      ensures pub.calls == old(pub.calls) + (Woven(b, events, replies, shares) + Nth(shares, |events|).calls)
      ensures metrics.Value()
              == Plus(CountAll(cfg, old(metrics.Value()), events, replies), Foreign(shares, |events| + 1))
      ensures forall kind: string :: metrics.OtherErrors(kind) == old(metrics.OtherErrors(kind))
    {
      sent, failIds := [], [];
      for i := 0 to |events|
        invariant Progress(cfg, b, events, replies, shares, i, sent, failIds, old(pub.calls), old(metrics.Value()),
                           pub.calls, metrics.Value())
        invariant forall kind: string :: metrics.OtherErrors(kind) == old(metrics.OtherErrors(kind))
      {
        sent, failIds := PublishNext(b, events, replies, shares, i, sent, failIds,
                                     old(pub.calls), old(metrics.Value()));
      }
      assert replies[..|events|] == replies;
      PlusGap(CountAll(cfg, old(metrics.Value()), events, replies), shares, |events|);
      LetWorkersRun(pub, metrics, Nth(shares, |events|));
    }

    /** Commits the outcome; the deferred rollback then ends whatever the commit left open. */
    method WriteOutcome(batch: PgBatch, replies: seq<Reply>, sent: seq<SentRef>, failIds: seq<EventId>, fault: Fault)
      returns (ok: bool, ghost applied: bool)
      requires batch.tx.db == db && batch.tx.Valid() && batch.tx.writes == map[]
      requires (batch.tx.open ==> batch.tx.locks == Ids(batch.events)) && DistinctIds(batch.events)
      requires |replies| == |batch.events|
      requires sent == SentRefs(batch.events, replies) && failIds == FailedIds(batch.events, replies)
      modifies batch.tx, db
      ensures applied <==> old(batch.tx.open) && fault.LetsCommit()
                           && OutcomeFits(old(db.rows), sent, failIds, batch.tx.now, cfg.maxAttempts)
      ensures ok <==> applied && !fault.ReplyLost?
      ensures if applied then Written(old(db.rows), db.rows, batch.events, replies, batch.tx.now, cfg.maxAttempts)
              else db.rows == old(db.rows)
      ensures db.locked == old(db.locked) - old(batch.tx.locks) && db.clock == old(db.clock)
    {
      SplitWithinClaim(batch.events, replies);
      ok, applied := batch.Commit(sent, failIds, cfg.maxAttempts, fault);
      batch.Rollback();
      CommitOutcome(old(db.rows), batch.events, replies, batch.tx.now, cfg.maxAttempts);
    }

    /** The part of a poll that follows a non-empty claim. */
    method RelayClaim(b: BatchId, batch: PgBatch, world: World, ghost start: Snapshot)
      returns (ok: bool, ghost poll: Poll)
      requires batch.tx.db == db && batch.tx.Valid() && batch.tx.open && batch.tx.writes == map[]
      requires batch.tx.now == start.clock && batch.tx.locks == Ids(batch.events)
      requires batch.tx.locks !! start.locked && db.Snap() == start.(locked := start.locked + batch.tx.locks)
      requires world.Claims() && ClaimOk(cfg, world, start, batch.events) && |batch.events| > 0
      requires |world.replies| >= |batch.events|
      modifies batch.tx, db, pub, metrics
      ensures PollOk(cfg, world, poll) && ok == Reported(world, poll)
      ensures poll.start == start && poll.events == batch.events && poll.finish == db.Snap()
      ensures pub.calls == old(pub.calls) + PollCalls(b, world, batch.events)
      ensures metrics.Value() == Plus(CountAll(cfg, old(metrics.Value()), batch.events, Replies(world, batch.events)),
                                      OthersCount(world, batch.events))
      ensures forall kind: string :: metrics.OtherErrors(kind) == old(metrics.OtherErrors(kind))
    {
      hide PollOk;
      hide OutcomeFits;
      hide Written;
      var events := batch.events;
      var replies := world.replies[..|events|];
      var sent, failIds := PublishAll(b, events, replies, world.shares);
      WhilePublishing(batch.tx, world.severed, world.during);
      ghost var before := db.Snap();
      BeforeIs(world, start, before, events);
      ghost var applied;
      ok, applied := WriteOutcome(batch, replies, sent, failIds, world.fault);
      poll := Poll(start, events, before, world.severed, applied, db.Snap());
      WholePoll(cfg, world, poll);
    }

    /** One poll: claim, publish while the rows stay locked, write the outcome. */
    method ProcessBatch(b: BatchId, world: World) returns (n: nat, ok: bool, ghost poll: Poll)
      requires |world.replies| >= cfg.batchSize
      modifies db, pub, metrics
      ensures PollOk(cfg, world, poll) && poll.start == old(db.Snap()) && poll.finish == db.Snap()
      ensures ok == Reported(world, poll) && n == if ok then |poll.events| else 0
      ensures pub.calls == old(pub.calls) + PollCalls(b, world, poll.events)
      ensures metrics.Value() == Plus(Plus(old(metrics.Value()), OwnCount(cfg, world, poll.events)),
                                      OthersCount(world, poll.events))
      ensures forall kind: string :: metrics.OtherErrors(kind) == old(metrics.OtherErrors(kind))
    {
      hide PollOk;
      hide ClaimedFrom;
      ghost var start, m := db.Snap(), metrics.Value();
      poll := Poll(start, [], start, false, false, start);
      var batch := ClaimBatch(db, cfg, world.beginFails, world.fetchFails);
      if batch == null {
        IdlePoll(cfg, world, start);
        return 0, false, poll;
      }
      var events := batch.events;
      metrics.RecordFetch(|events|);
      if |events| == 0 {
        batch.Rollback();
        assert events == [];
        IdlePoll(cfg, world, start);
        return 0, true, poll;
      }
      ok, poll := RelayClaim(b, batch, world, start);
      OwnCountIs(cfg, world, m, events);
      n := if ok then |events| else 0;
    }

    /** One turn of the poll loop, after the others had theirs: an idle worker sleeps, and a failed
        poll is logged. */
    method NextPoll(b: BatchId, i: nat, world: nat -> World, ghost polls: seq<Poll>,
                    ghost start: Snapshot, ghost calls: seq<Call>, ghost m: Counters)
      returns (ghost polls': seq<Poll>)
      requires |world(i).replies| >= cfg.batchSize
      requires |polls| == i && PollsOk(cfg, world, polls, start) && db.Snap() == LoopEnd(polls, start)
      requires Told(cfg, calls, m, pub.calls, metrics.Value(), b, world, polls)
      modifies db, pub, metrics
      ensures |polls'| == i + 1 && PollsOk(cfg, world, polls', start) && db.Snap() == LoopEnd(polls', start)
      ensures Told(cfg, calls, m, pub.calls, metrics.Value(), b, world, polls')
      ensures forall kind: string :: metrics.OtherErrors(kind) == old(metrics.OtherErrors(kind))
    {
      hide PollOk;
      hide PollsOk;
      hide Told;
      if i > 0 {
        LetOthersRun(db, {}, world(i - 1).after);
        LetWorkersRun(pub, metrics, world(i - 1).afterShare);
      }
      assert pub.calls == old(pub.calls) + GapShare(world, i).calls;
      assert metrics.Value() == Plus(old(metrics.Value()), GapShare(world, i).counters);
      ghost var poll;
      var n, ok;
      n, ok, poll := ProcessBatch(b + i, world(i));
      polls' := polls + [poll];
      LoopExtends(cfg, world, polls, poll, start);
      ToldMore(cfg, calls, m, old(pub.calls), old(metrics.Value()), b, world, polls, poll);
    }

    /** The poll loop of one worker until its context is seen cancelled, after `cancelAfter`
        polls. Every poll is whole: it starts from what the others left, does exactly what a poll
        does and has ended when cancellation is seen. Only this worker's polls add to its share
        of the counters and calls. */
    method RunLoop(b: BatchId, world: nat -> World, cancelAfter: nat) returns (ghost polls: seq<Poll>)
      requires forall i :: |world(i).replies| >= cfg.batchSize
      modifies db, pub, metrics
      ensures |polls| == cancelAfter && PollsOk(cfg, world, polls, old(db.Snap()))
      ensures db.Snap() == LoopEnd(polls, old(db.Snap()))
      ensures Told(cfg, old(pub.calls), old(metrics.Value()), pub.calls, metrics.Value(), b, world, polls)
      ensures forall kind: string ::
                metrics.ErrorCount(kind) - old(metrics.ErrorCount(kind))
                == if kind == "publish" then metrics.Value().failed - old(metrics.Value().failed) else 0
    {
      polls := [];
      var i := 0;
      while i < cancelAfter
        invariant |polls| == i <= cancelAfter && PollsOk(cfg, world, polls, old(db.Snap()))
        invariant db.Snap() == LoopEnd(polls, old(db.Snap()))
        invariant Told(cfg, old(pub.calls), old(metrics.Value()), pub.calls, metrics.Value(), b, world, polls)
        invariant forall kind: string :: metrics.OtherErrors(kind) == old(metrics.OtherErrors(kind))
      {
        polls := NextPoll(b, i, world, polls, old(db.Snap()), old(pub.calls), old(metrics.Value()));
        i := i + 1;
      }
      forall kind: string
        ensures metrics.ErrorCount(kind) - old(metrics.ErrorCount(kind))
                == if kind == "publish" then metrics.Value().failed - old(metrics.Value().failed) else 0
      {
        assert metrics.OtherErrors(kind) == old(metrics.OtherErrors(kind));
      }
    }
  }

  /** What a poll claims, read off the rows: PENDING ones at once, FAILED ones whose wait is over,
      none that is locked, SENT or DEAD, each as the table has it. A row that qualifies and is not
      claimed had to give way to a full batch of rows that are not newer. */
  lemma ClaimedRows(cfg: Config, world: World, p: Poll)
    requires PollOk(cfg, world, p) && world.Claims()
    ensures |p.events| <= cfg.batchSize
    ensures forall i :: 0 <= i < |p.events| ==>
              var e := p.events[i];
              && e.id in p.start.rows && e.id !in p.start.locked
              && e.msg == p.start.rows[e.id].msg && e.attempts == p.start.rows[e.id].attempts
              && match p.start.rows[e.id].status
                 case Pending => true
                 case Failed =>
                   p.start.rows[e.id].lastAttemptAt.None?
                   || p.start.clock - p.start.rows[e.id].lastAttemptAt.value >= SqlWait(cfg.backoff, e.attempts)
                 case _ => false
    ensures forall i, j :: 0 <= i < j < |p.events| ==>
              && p.events[i].id != p.events[j].id
              && p.start.rows[p.events[i].id].createdAt <= p.start.rows[p.events[j].id].createdAt
    ensures forall id ::
              && id in p.start.rows && id !in p.start.locked && (forall e :: e in p.events ==> e.id != id)
              && (match p.start.rows[id].status
                  case Pending => true
                  case Failed =>
                    p.start.rows[id].lastAttemptAt.None?
                    || p.start.clock - p.start.rows[id].lastAttemptAt.value
                       >= SqlWait(cfg.backoff, p.start.rows[id].attempts)
                  case _ => false) ==>
                && |p.events| == cfg.batchSize
                && forall e :: e in p.events ==> p.start.rows[e.id].createdAt <= p.start.rows[id].createdAt
  {
    hide SqlWait;
    assert ClaimedFrom(cfg, p.start, p.events);
    var ids := ClaimedIds(p.events);
    forall i | 0 <= i < |p.events|
      ensures Held(cfg, p.start.rows, p.start.clock, p.events[i]) && ids[i] == p.events[i].id
    {
      assert Candidate(cfg, p.start.rows, p.start.locked, p.start.clock, ids[i]);
    }
    forall id | id in p.start.rows && id !in p.start.locked && (forall e :: e in p.events ==> e.id != id)
                && Eligible(cfg, p.start.rows[id], p.start.clock)
      ensures |p.events| == cfg.batchSize
      ensures forall e :: e in p.events ==> p.start.rows[e.id].createdAt <= p.start.rows[id].createdAt
    {
      assert Candidate(cfg, p.start.rows, p.start.locked, p.start.clock, id);
      forall k | 0 <= k < |ids| ensures ids[k] != id {
        assert p.events[k] in p.events;
      }
    }
  }

  /** What a poll that was written leaves in each column of a claimed row: one more attempt than its
      event had, the claim's clock, and its own reply's position or its failure. */
  lemma WrittenColumns(cfg: Config, world: World, p: Poll, i: nat)
    requires PollOk(cfg, world, p) && p.applied && i < |p.events|
    ensures |p.events| <= |world.replies|
    ensures var e, now := p.events[i], p.start.clock;
            && e.id in p.before.rows && e.id in p.finish.rows
            && var r, r' := p.before.rows[e.id], p.finish.rows[e.id];
               && r'.msg == e.msg && r'.createdAt == r.createdAt && r'.attempts == e.attempts + 1
               && match world.replies[i]
                  case Acked(partition, offset) =>
                    && r'.status == Sent && r'.sentAt == Some(now) && r'.settledBy == Some(Poller)
                    && r'.partition == Some(partition) && r'.offset == Some(offset)
                    && r'.lastAttemptAt == r.lastAttemptAt
                  case _ =>
                    && r'.status == (if e.attempts + 1 >= cfg.maxAttempts then Dead else Failed)
                    && r'.lastAttemptAt == Some(now)
                    && r'.sentAt == r.sentAt && r'.settledBy == r.settledBy
                    && r'.partition == r.partition && r'.offset == r.offset
    ensures forall id :: id in p.before.rows && (forall e :: e in p.events ==> e.id != id) ==>
              id in p.finish.rows && p.finish.rows[id] == p.before.rows[id]
  {
    assert Held(cfg, p.before.rows, p.start.clock, p.events[i]);
  }

  /** Exactly when a poll's outcome is written. (A stored partition fits its column.) */
  lemma WrittenExactly(cfg: Config, world: World, p: Poll)
    requires PollOk(cfg, world, p)
    requires forall id :: id in p.before.rows && p.before.rows[id].partition.Some? ==>
               p.before.rows[id].partition.value <= 32767
    ensures |p.events| <= |world.replies|
    ensures p.applied
            <==> && p.events != [] && !world.severed && (world.fault.NoFault? || world.fault.ReplyLost?)
                 && forall i :: 0 <= i < |p.events| ==>
                      && p.events[i].attempts < 32767
                      && (world.replies[i].Acked? ==> world.replies[i].partition <= 32767)
  {
    var replies := Replies(world, p.events);
    if p.events != [] && !p.severed {
      OutcomeFitsExactly(p.before.rows, p.events, replies, p.start.clock, cfg.maxAttempts);
      hide OutcomeFits;
      hide Written;
      forall i | 0 <= i < |p.events|
        ensures p.events[i].id in p.before.rows
        ensures StorableRow(Outcome(p.before.rows[p.events[i].id], p.events[i].id, replies[i], p.start.clock,
                                    cfg.maxAttempts))
                <==> p.events[i].attempts < 32767 && (world.replies[i].Acked? ==> world.replies[i].partition <= 32767)
      {
        assert Held(cfg, p.before.rows, p.start.clock, p.events[i]);
      }
    }
  }

  /** A poll that claims nothing. */
  lemma IdlePoll(cfg: Config, world: World, start: Snapshot)
    requires world.Claims() ==> ClaimedFrom(cfg, start, [])
    ensures PollOk(cfg, world, Poll(start, [], start, false, false, start))
    ensures Reported(world, Poll(start, [], start, false, false, start)) == world.Claims()
  {
    assert Ids([]) == {};
  }

  /** A poll's own counts do not depend on what was counted before. */
  lemma OwnCountIs(cfg: Config, world: World, m: Counters, events: seq<Event>)
    requires |events| <= |world.replies|
    ensures CountAll(cfg, m.(fetched := m.fetched + |events|), events, Replies(world, events))
            == Plus(m, OwnCount(cfg, world, events))
  {
    var fetched := NOTHING.(fetched := |events|);
    CountAllPlus(cfg, fetched, m, events, Replies(world, events));
    assert Plus(fetched, m) == m.(fetched := m.fetched + |events|);
  }

  /** Where the next poll starts: after the others had their turn. */
  function NextStart(world: nat -> World, polls: seq<Poll>, start: Snapshot): Snapshot {
    if polls == [] then start else Interfere(world(|polls| - 1).after, polls[|polls| - 1].finish, {})
  }

  /** What the last poll left. */
  function LoopEnd(polls: seq<Poll>, start: Snapshot): Snapshot {
    if polls == [] then start else polls[|polls| - 1].finish
  }

  /** What the other workers add between poll `n - 1` and poll `n`. */
  function GapShare(world: nat -> World, n: nat): Share {
    if n > 0 then world(n - 1).afterShare else Share(NOTHING, [])
  }

  /** Polls of one worker, one after the other. */
  ghost predicate PollsOk(cfg: Config, world: nat -> World, polls: seq<Poll>, start: Snapshot) {
    if polls == [] then true
    else
      var n := |polls| - 1;
      && PollsOk(cfg, world, polls[..n], start)
      && PollOk(cfg, world(n), polls[n])
      && polls[n].start == NextStart(world, polls[..n], start)
  }

  lemma LoopExtends(cfg: Config, world: nat -> World, polls: seq<Poll>, poll: Poll, start: Snapshot)
    requires PollsOk(cfg, world, polls, start) && PollOk(cfg, world(|polls|), poll)
    requires poll.start == NextStart(world, polls, start)
    ensures PollsOk(cfg, world, polls + [poll], start)
  {
    assert (polls + [poll])[..|polls|] == polls;
  }

  lemma LoopCounts(cfg: Config, b: BatchId, world: nat -> World, polls: seq<Poll>, poll: Poll)
    ensures LoopCalls(b, world, polls + [poll])
            == LoopCalls(b, world, polls)
               + (GapShare(world, |polls|).calls + PollCalls(b + |polls|, world(|polls|), poll.events))
    ensures LoopCount(cfg, world, polls + [poll])
            == Plus(LoopCount(cfg, world, polls), OwnCount(cfg, world(|polls|), poll.events))
    ensures LoopOthers(world, polls + [poll])
            == Plus(LoopOthers(world, polls),
                    Plus(GapShare(world, |polls|).counters, OthersCount(world(|polls|), poll.events)))
  {
    assert (polls + [poll])[..|polls|] == polls;
  }

  /** The shared calls and counters after some polls of one worker: what they were, what its
      polls add, and what the other workers added meanwhile. */
  ghost predicate Told(cfg: Config, calls: seq<Call>, m: Counters, calls': seq<Call>, m': Counters,
                       b: BatchId, world: nat -> World, polls: seq<Poll>)
  {
    && calls' == calls + LoopCalls(b, world, polls)
    && m' == Plus(Plus(m, LoopCount(cfg, world, polls)), LoopOthers(world, polls))
  }

  lemma ToldMore(cfg: Config, calls: seq<Call>, m: Counters, calls': seq<Call>, m': Counters,
                 b: BatchId, world: nat -> World, polls: seq<Poll>, poll: Poll)
    requires Told(cfg, calls, m, calls', m', b, world, polls)
    ensures var n := |polls|;
            var gap, w := GapShare(world, n), world(n);
            Told(cfg, calls, m, calls' + gap.calls + PollCalls(b + n, w, poll.events),
                 Plus(Plus(Plus(m', gap.counters), OwnCount(cfg, w, poll.events)), OthersCount(w, poll.events)),
                 b, world, polls + [poll])
  {
    hide LoopCalls;
    hide LoopCount;
    hide LoopOthers;
    hide PollCalls;
    hide OwnCount;
    hide OthersCount;
    hide GapShare;
    hide Plus;
    LoopCounts(cfg, b, world, polls, poll);
    PlusShuffle(m, LoopCount(cfg, world, polls), LoopOthers(world, polls), GapShare(world, |polls|).counters,
                OwnCount(cfg, world(|polls|), poll.events), OthersCount(world(|polls|), poll.events));
  }

  lemma PlusShuffle(m: Counters, a: Counters, b: Counters, g: Counters, c: Counters, d: Counters)
    ensures Plus(Plus(Plus(Plus(Plus(m, a), b), g), c), d) == Plus(Plus(m, Plus(a, c)), Plus(b, Plus(g, d)))
  {
  }

  ghost function LoopCalls(b: BatchId, world: nat -> World, polls: seq<Poll>): seq<Call> {
    if polls == [] then []
    else
      var n := |polls| - 1;
      LoopCalls(b, world, polls[..n]) + (GapShare(world, n).calls + PollCalls(b + n, world(n), polls[n].events))
  }

  ghost function LoopCount(cfg: Config, world: nat -> World, polls: seq<Poll>): Counters {
    if polls == [] then NOTHING
    else
      var n := |polls| - 1;
      Plus(LoopCount(cfg, world, polls[..n]), OwnCount(cfg, world(n), polls[n].events))
  }

  ghost function LoopOthers(world: nat -> World, polls: seq<Poll>): Counters {
    if polls == [] then NOTHING
    else
      var n := |polls| - 1;
      Plus(LoopOthers(world, polls[..n]), Plus(GapShare(world, n).counters, OthersCount(world(n), polls[n].events)))
  }

  /** Whenever cancellation comes, a worker's own share of the counters balances: each event it
      fetched was counted as processed and published, or as failed. */
  lemma {:induction false} ShareBalances(cfg: Config, world: nat -> World, polls: seq<Poll>, start: Snapshot)
    requires PollsOk(cfg, world, polls, start)
    ensures var m := LoopCount(cfg, world, polls);
            m.fetched == m.processed + m.failed && m.published == m.processed
  {
    hide PollOk;
    if polls != [] {
      var n := |polls| - 1;
      ShareBalances(cfg, world, polls[..n], start);
      PollBalances(cfg, world(n), polls[n]);
    }
  }

  lemma PollBalances(cfg: Config, world: World, p: Poll)
    requires PollOk(cfg, world, p)
    ensures var m := OwnCount(cfg, world, p.events);
            m.fetched == |p.events| == m.processed + m.failed && m.published == m.processed
  {
    BatchCounted(cfg, NOTHING.(fetched := |p.events|), p.events, Replies(world, p.events));
  }

  /** A claim, what happened while it was published, and what was written make a whole poll. */
  lemma WholePoll(cfg: Config, world: World, p: Poll)
    requires ClaimOk(cfg, world, p.start, p.events) && p.events != [] && |p.events| <= |world.replies|
    requires p.severed == world.severed && p.before == BeforeOutcome(world, p.start, p.events)
    requires !p.severed ==> Allowed(p.start.(locked := p.start.locked + Ids(p.events)), p.before, Ids(p.events))
    requires var replies := Replies(world, p.events);
             p.applied <==> !p.severed && world.fault.LetsCommit()
                            && OutcomeFits(p.before.rows, SentRefs(p.events, replies), FailedIds(p.events, replies),
                                           p.start.clock, cfg.maxAttempts)
    requires if p.applied then Written(p.before.rows, p.finish.rows, p.events, Replies(world, p.events), p.start.clock,
                                       cfg.maxAttempts)
             else p.finish.rows == p.before.rows
    requires p.finish.locked == (if p.severed then p.before.locked else p.before.locked - Ids(p.events))
    requires p.finish.clock == p.before.clock
    ensures PollOk(cfg, world, p)
  {
    hide OutcomeFits;
    hide Written;
    if !p.severed {
      LocksKeepHeld(cfg, p.start.rows, p.before.rows, p.start.clock, p.events);
    }
  }

  lemma BeforeIs(world: World, start: Snapshot, before: Snapshot, events: seq<Event>)
    requires events != [] && Ids(events) !! start.locked
    requires before == if world.severed
                       then Interfere(world.during,
                                      Unlocked(start.(locked := start.locked + Ids(events)), Ids(events)), {})
                       else Interfere(world.during, start.(locked := start.locked + Ids(events)), Ids(events))
    ensures before == BeforeOutcome(world, start, events)
    ensures !world.severed ==> Allowed(start.(locked := start.locked + Ids(events)), before, Ids(events))
  {
    assert start.locked + Ids(events) - Ids(events) == start.locked;
  }

  lemma LocksKeepHeld(cfg: Config, rows: Table, rows': Table, now: int, events: seq<Event>)
    requires AllHeld(cfg, rows, now, events)
    requires forall id :: id in Ids(events) && id in rows ==> id in rows' && rows'[id] == rows[id]
    ensures AllHeld(cfg, rows', now, events)
  {
    forall i | 0 <= i < |events| ensures Held(cfg, rows', now, events[i]) {
      assert Held(cfg, rows, now, events[i]);
    }
  }

  /** The publish loop only reports events it was given. */
  lemma SplitWithinClaim(events: seq<Event>, replies: seq<Reply>)
    requires |replies| <= |events|
    ensures forall id :: RefFor(SentRefs(events, replies), id).Some? || id in FailedIds(events, replies) ==>
              id in Ids(events)
  {
    forall id | id !in Ids(events)
      ensures RefFor(SentRefs(events, replies), id).None? && id !in FailedIds(events, replies)
    {
      SplitForeign(events, replies, id);
    }
  }
}
