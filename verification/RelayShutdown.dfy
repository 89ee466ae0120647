/** Stopping the relay: once no worker begins another batch and each open one has ended, nothing
    is locked, and every live row waits for nothing but its backoff. */
module RelayShutdown {
  import opened Outbox
  import opened RelaySystem
  import opened RelayHistory
  import opened RelayTheorems

  predicate NoBegins(steps: seq<Step>) {
    forall i :: 0 <= i < |steps| ==> !steps[i].Begin?
  }

  predicate Ends(step: Step, b: BatchId) {
    (step.Commit? || step.Rollback? || step.Sever?) && step.batch == b
  }

  predicate EndedIn(steps: seq<Step>, b: BatchId) {
    exists i :: 0 <= i < |steps| && Ends(steps[i], b)
  }

  lemma StepEnds(cfg: Config, s: State, step: Step, b: BatchId)
    requires LockInv(cfg, s) && Enabled(cfg, s, step) && !step.Begin?
    ensures b in Apply(cfg, s, step).open ==> b in s.open && !Ends(step, b)
  {
  }

  lemma {:induction false} RunEnds(cfg: Config, s: State, steps: seq<Step>, b: BatchId)
    requires LockInv(cfg, s) && Run(cfg, s, steps) && NoBegins(steps)
    ensures b in Final(cfg, s, steps).open ==> b in s.open && !EndedIn(steps, b)
    decreases |steps|
  {
    if steps != [] {
      StepEnds(cfg, s, steps[0], b);
      LockInvKept(cfg, s, steps[0]);
      RunEnds(cfg, Apply(cfg, s, steps[0]), steps[1..], b);
      if i :| 0 < i < |steps| && Ends(steps[i], b) {
        assert steps[1..][i - 1] == steps[i];
      }
    }
  }

  /** No batch is open, a row is claimable at any time exactly when it is eligible then, and every
      fetched event was counted or left unpublished by a batch that did not commit. */
  ghost predicate Drained(cfg: Config, f: State) {
    && f.open == map[]
    && (forall id, now :: Candidate(cfg, f.rows, LockedIds(f), now, id) <==>
          id in f.rows && Eligible(cfg, f.rows[id], now))
    && f.metrics.fetched == f.metrics.processed + f.metrics.failed + f.abandoned + Unanswered(f.orphans)
  }

  lemma NoneOpenIsDrained(cfg: Config, f: State)
    requires Inv(cfg, f) && forall b :: b !in f.open
    ensures Drained(cfg, f)
  {
    assert f.open == map[];
    assert LockedIds(f) == {};
  }

  /** Whatever else runs meanwhile: when no batch begins and every open one ends, no batch is open,
      no row is locked, and a row is claimable at any time exactly when it is eligible then. */
  lemma StopDrains(cfg: Config, s: State, steps: seq<Step>)
    requires Reachable(cfg, s) && Run(cfg, s, steps) && NoBegins(steps)
    requires forall b :: b in s.open ==> EndedIn(steps, b)
    ensures Drained(cfg, Final(cfg, s, steps))
  {
    ReachableInv(cfg, s);
    RunKeepsInv(cfg, s, steps);
    forall b ensures b !in Final(cfg, s, steps).open {
      RunEnds(cfg, s, steps, b);
    }
    NoneOpenIsDrained(cfg, Final(cfg, s, steps));
  }

  /** No session is lost, and a batch is rolled back only after its last publish: every exit of a
      worker that is not killed. */
  ghost predicate Orderly(cfg: Config, s: State, steps: seq<Step>)
    requires Run(cfg, s, steps)
    decreases |steps|
  {
    steps == [] ||
    ((match steps[0]
      case Sever(_) => false
      case Rollback(b) => b in s.open ==> s.open[b].Unanswered() == 0
      case _ => true)
     && Orderly(cfg, Apply(cfg, s, steps[0]), steps[1..]))
  }

  lemma {:induction false} OrderlyKeepsCount(cfg: Config, s: State, steps: seq<Step>)
    requires LockInv(cfg, s) && Run(cfg, s, steps) && Orderly(cfg, s, steps) && s.orphans == map[]
    ensures Final(cfg, s, steps).abandoned == s.abandoned && Final(cfg, s, steps).orphans == map[]
    decreases |steps|
  {
    if steps != [] {
      LockInvKept(cfg, s, steps[0]);
      OrderlyKeepsCount(cfg, Apply(cfg, s, steps[0]), steps[1..]);
    }
  }

  /** After an orderly life of the process the counters balance: every fetched event was counted
      as processed or as failed. */
  lemma OrderlyStopBalances(cfg: Config, steps: seq<Step>)
    requires cfg.Accepted() && Run(cfg, EMPTY, steps) && Orderly(cfg, EMPTY, steps)
    requires Final(cfg, EMPTY, steps).open == map[]
    ensures var m := Final(cfg, EMPTY, steps).metrics;
            m.fetched == m.processed + m.failed && m.published == m.processed
  {
    EmptyInv(cfg);
    RunKeepsInv(cfg, EMPTY, steps);
    OrderlyKeepsCount(cfg, EMPTY, steps);
  }
}
