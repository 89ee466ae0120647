/** What is published is what was posted: rows keep the message and the creation time they were
    written with, and every call of the publisher carries such a message. */
module RelayMessages {
  import opened Outbox
  import opened RelaySystem
  import opened RelayAtomicity

  /** The table, or the purge's history, has the event with this message and creation time. */
  predicate Holds(s: State, id: EventId, msg: Message, at: int) {
    || (id in s.rows && s.rows[id].msg == msg && s.rows[id].createdAt == at)
    || (id in s.purged && s.purged[id].msg == msg && s.purged[id].createdAt == at)
  }

  lemma StepHolds(cfg: Config, s: State, step: Step, id: EventId, msg: Message, at: int)
    requires LockInv(cfg, s) && Enabled(cfg, s, step)
    ensures Holds(Apply(cfg, s, step), id, msg, at) <==> Holds(s, id, msg, at) || step == Insert(id, msg, at)
  {
    if step.Commit? {
      var _ := CommitRow(cfg, s, step, id);
    }
  }

  lemma LastOfRun(cfg: Config, s: State, steps: seq<Step>)
    requires LockInv(cfg, s) && Run(cfg, s, steps) && steps != []
    ensures var n := |steps| - 1;
            && Run(cfg, s, steps[..n]) && LockInv(cfg, Final(cfg, s, steps[..n]))
            && Enabled(cfg, Final(cfg, s, steps[..n]), steps[n])
            && Final(cfg, s, steps) == Apply(cfg, Final(cfg, s, steps[..n]), steps[n])
    ensures forall step :: step in steps <==> step in steps[..|steps| - 1] || step == steps[|steps| - 1]
  {
    hide Run;
    hide LockInv;
    var n := |steps| - 1;
    assert steps == steps[..n] + [steps[n]];
    RunSplit(cfg, s, steps[..n], [steps[n]]);
    RunOne(cfg, Final(cfg, s, steps[..n]), steps[n]);
    RunKeepsLocks(cfg, s, steps[..n]);
  }

  lemma EmptyHasLocks(cfg: Config)
    ensures LockInv(cfg, EMPTY) && Run(cfg, EMPTY, []) && Final(cfg, EMPTY, []) == EMPTY
  {
  }

  /** The events of the system are exactly the posted ones, each with the message and creation
      time it was posted with, after any run: no claim, commit, mark or purge changes them. */
  lemma {:induction false} PostedExactly(cfg: Config, steps: seq<Step>, id: EventId, msg: Message, at: int)
    requires Run(cfg, EMPTY, steps)
    ensures var f := Final(cfg, EMPTY, steps);
            Insert(id, msg, at) in steps
            <==> || (id in f.rows && f.rows[id].msg == msg && f.rows[id].createdAt == at)
                 || (id in f.purged && f.purged[id].msg == msg && f.purged[id].createdAt == at)
    decreases |steps|
  {
    hide Apply;
    hide Enabled;
    EmptyHasLocks(cfg);
    if steps != [] {
      var n := |steps| - 1;
      LastOfRun(cfg, EMPTY, steps);
      PostedExactly(cfg, steps[..n], id, msg, at);
      StepHolds(cfg, Final(cfg, EMPTY, steps[..n]), steps[n], id, msg, at);
    }
  }

  /** The event carries the message of its posting. */
  ghost predicate Posted(steps: seq<Step>, e: Event) {
    exists at :: Insert(e.id, e.msg, at) in steps
  }

  ghost predicate AllPosted(steps: seq<Step>, s: State) {
    && (forall c :: c in s.calls ==> Posted(steps, c.event))
    && (forall b, e :: b in s.open && e in s.open[b].events ==> Posted(steps, e))
    && (forall b, e :: b in s.orphans && e in s.orphans[b].events ==> Posted(steps, e))
  }

  lemma MorePosted(first: seq<Step>, steps: seq<Step>, s: State)
    requires AllPosted(first, s) && forall step :: step in first ==> step in steps
    ensures AllPosted(steps, s)
  {
    forall e | Posted(first, e) ensures Posted(steps, e) {
      var at :| Insert(e.id, e.msg, at) in first;
      assert Insert(e.id, e.msg, at) in steps;
    }
  }

  lemma StepPosted(cfg: Config, steps: seq<Step>, s: State, step: Step)
    requires LockInv(cfg, s) && Enabled(cfg, s, step) && AllPosted(steps, s)
    requires forall id :: id in s.rows ==> Insert(id, s.rows[id].msg, s.rows[id].createdAt) in steps
    ensures AllPosted(steps, Apply(cfg, s, step))
  {
    var s' := Apply(cfg, s, step);
    if step.Claim? {
      forall e | e in s'.open[step.batch].events ensures Posted(steps, e) {
        assert Insert(e.id, s.rows[e.id].msg, s.rows[e.id].createdAt) in steps;
      }
    }
  }

  /** Whatever is published, on time, again or late, carries the topic, key and payload that its
      event was posted with. */
  lemma PublishedAsPosted(cfg: Config, steps: seq<Step>)
    requires Run(cfg, EMPTY, steps)
    ensures forall c :: c in Final(cfg, EMPTY, steps).calls ==>
              exists at :: Insert(c.event.id, c.event.msg, at) in steps
  {
    hide Run;
    hide Final;
    AllArePosted(cfg, steps);
    forall c | c in Final(cfg, EMPTY, steps).calls
      ensures exists at :: Insert(c.event.id, c.event.msg, at) in steps
    {
      assert Posted(steps, c.event);
    }
  }

  lemma {:induction false} AllArePosted(cfg: Config, steps: seq<Step>)
    requires Run(cfg, EMPTY, steps)
    ensures AllPosted(steps, Final(cfg, EMPTY, steps))
    decreases |steps|
  {
    hide Apply;
    hide Enabled;
    EmptyHasLocks(cfg);
    if steps != [] {
      var n := |steps| - 1;
      LastOfRun(cfg, EMPTY, steps);
      var s := Final(cfg, EMPTY, steps[..n]);
      AllArePosted(cfg, steps[..n]);
      forall id | id in s.rows ensures Insert(id, s.rows[id].msg, s.rows[id].createdAt) in steps {
        PostedExactly(cfg, steps[..n], id, s.rows[id].msg, s.rows[id].createdAt);
      }
      MorePosted(steps[..n], steps, s);
      StepPosted(cfg, steps, s, steps[n]);
    }
  }
}
