/** The wait for the workers at shutdown: once every worker's loop has returned, no batch is open,
    whatever the workers and everybody else did during and between each other's polls. */
module PollShutdown {
  import opened Outbox
  import opened RelaySystem
  import opened RelayHistory
  import opened RelayTheorems
  import opened RelayShutdown
  import opened OutboxRepo
  import opened Polling
  import opened PollRefinement
  import opened PollRuns

  /** One worker's life in a run: its whole loop, after `earlier` and before `later` steps, numbered
      from batch `first` on. The steps of the other workers are among its own. */
  datatype Life = Life(earlier: seq<Step>, first: BatchId, world: nat -> World, polls: seq<Poll>, legs: seq<Leg>,
                       later: seq<Step>)

  /** The run as this worker sees it: its loop started, made these polls, and returned. */
  ghost predicate Lives(cfg: Config, steps: seq<Step>, life: Life) {
    && |life.legs| == |life.polls|
    && steps == life.earlier + LoopSteps(life.first, life.world, life.polls, life.legs) + life.later
    && var s := After(cfg, EMPTY, life.earlier);
       && PollsOk(cfg, life.world, life.polls, SnapOf(s))
       && PlaysLoop(cfg, s, life.first, life.world, life.polls, life.legs)
  }

  /** Batch `b` is one that this worker's polls began. */
  predicate BeganIn(life: Life, b: BatchId) {
    exists k: nat :: k < |life.polls| && !life.world(k).beginFails && b == life.first + k
  }

  /** Only workers begin batches. */
  predicate BegunBy(steps: seq<Step>, lives: seq<Life>) {
    forall i :: 0 <= i < |steps| && steps[i].Begin? ==>
      exists j :: 0 <= j < |lives| && BeganIn(lives[j], steps[i].batch)
  }

  /** An open batch was open before, or a step began it. */
  lemma {:induction false} OpenWasBegun(cfg: Config, s: State, steps: seq<Step>, b: BatchId)
    requires Run(cfg, s, steps) && b in Final(cfg, s, steps).open && b !in s.open
    ensures Begin(b) in steps
    decreases |steps|
  {
    if steps[0] != Begin(b) {
      OpenWasBegun(cfg, Apply(cfg, s, steps[0]), steps[1..], b);
    }
  }

  lemma RunFromEmpty(cfg: Config, steps: seq<Step>)
    requires cfg.Accepted() && Run(cfg, EMPTY, steps)
    ensures LockInv(cfg, Final(cfg, EMPTY, steps)) && Inv(cfg, Final(cfg, EMPTY, steps))
  {
    EmptyInv(cfg);
    RunKeepsInv(cfg, EMPTY, steps);
  }

  /** What a returned worker began has ended. */
  lemma LifeEnds(cfg: Config, steps: seq<Step>, life: Life, b: BatchId)
    requires cfg.Accepted() && Run(cfg, EMPTY, steps) && Lives(cfg, steps, life) && BeganIn(life, b)
    ensures b in Final(cfg, EMPTY, steps).fates
  {
    hide LockInv;
    hide Inv;
    hide Run;
    hide Final;
    hide Told;
    hide PlaysLoop;
    hide PollsOk;
    hide LoopSteps;
    var loop := LoopSteps(life.first, life.world, life.polls, life.legs);
    assert steps == life.earlier + (loop + life.later);
    RunSplit(cfg, EMPTY, life.earlier, loop + life.later);
    var s := Final(cfg, EMPTY, life.earlier);
    AfterIsFinal(cfg, EMPTY, life.earlier);
    RunFromEmpty(cfg, life.earlier);
    LoopIsRun(cfg, s, life.first, life.world, life.polls, life.legs);
    RunSplit(cfg, s, loop, life.later);
    FatesStay(cfg, Final(cfg, s, loop), life.later);
  }

  /** The wait for all workers drains the relay: in any run in which each worker's loop has
      returned, with anything the other workers and everybody else did during its publishes and
      between its polls, no batch is open, nothing is locked and every fetched event is accounted
      for. */
  lemma WorkersDrain(cfg: Config, steps: seq<Step>, lives: seq<Life>)
    requires cfg.Accepted() && Run(cfg, EMPTY, steps) && BegunBy(steps, lives)
    requires forall j :: 0 <= j < |lives| ==> Lives(cfg, steps, lives[j])
    ensures Drained(cfg, Final(cfg, EMPTY, steps))
  {
    var f := Final(cfg, EMPTY, steps);
    RunFromEmpty(cfg, steps);
    forall b ensures b !in f.open {
      if b in f.open {
        OpenWasBegun(cfg, EMPTY, steps, b);
        var j :| 0 <= j < |lives| && BeganIn(lives[j], b);
        LifeEnds(cfg, steps, lives[j], b);
      }
    }
    NoneOpenIsDrained(cfg, f);
  }
}
