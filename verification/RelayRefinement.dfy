/** The concurrent relay refines a one-event automaton: seen from any single event, every step
    of the system is an atomic delivery, one counted failure, parking, or nothing at all. */
module RelayRefinement {
  import opened Wrappers
  import opened Outbox
  import opened RelaySystem
  import opened RelaySafety
  import opened RelayTheorems

  /** What an observer of one event sees. Purging a delivered event is not visible. */
  datatype View = Absent | Waiting(failures: nat) | Delivered(marker: Option<Marker>) | Parked

  function ViewOf(s: State, id: EventId): View {
    if id in s.rows then
      match s.rows[id].status
      case Pending => Waiting(s.rows[id].attempts)
      case Failed => Waiting(s.rows[id].attempts)
      case Sent => Delivered(s.rows[id].settledBy)
      case Dead => Parked
    else if id in s.purged then Delivered(s.purged[id].settledBy)
    else Absent
  }

  /** One move of the automaton with retry budget `maxAttempts`. */
  predicate Move(maxAttempts: nat, v: View, v': View) {
    match v
    case Absent => v' == Waiting(0)
    case Waiting(k) => v'.Delivered? || (if k + 1 < maxAttempts then v' == Waiting(k + 1) else v'.Parked?)
    case Delivered(_) => false
    case Parked => false
  }

  /** Each step of the system is a move of the event or leaves it alone; only a commit moves it
      by failing or parking. (`DeliveryHasRecord` is about deliveries.) */
  lemma StepRefines(cfg: Config, s: State, step: Step, id: EventId)
    requires cfg.Accepted() && Inv(cfg, s) && Enabled(cfg, s, step)
    ensures var v, v' := ViewOf(s, id), ViewOf(Apply(cfg, s, step), id);
            && (v == v' || Move(cfg.maxAttempts, v, v'))
            && (v != v' && v'.Parked? ==> step.Commit?)
            && (v.Waiting? && v'.Waiting? && v != v' ==> step.Commit?)
  {
    if step.Commit? {
      if id in s.rows {
        assert RowOk(cfg, s.rows[id]);
        CommitRefines(cfg, s, step, id);
      } else {
        var _ := CommitRow(cfg, s, step, id);
      }
    } else {
      OtherStepsRefine(cfg, s, step, id);
    }
  }

  lemma CommitRefines(cfg: Config, s: State, step: Step, id: EventId)
    requires LockInv(cfg, s) && step.Commit? && Enabled(cfg, s, step) && id in s.rows && RowOk(cfg, s.rows[id])
    ensures var v, v' := ViewOf(s, id), ViewOf(Apply(cfg, s, step), id);
            v == v' || (v.Waiting? && Move(cfg.maxAttempts, v, v'))
  {
    var _ := CommitRow(cfg, s, step, id);
  }

  lemma OtherStepsRefine(cfg: Config, s: State, step: Step, id: EventId)
    requires LockInv(cfg, s) && Enabled(cfg, s, step) && !step.Commit?
    ensures var v, v' := ViewOf(s, id), ViewOf(Apply(cfg, s, step), id);
            v == v' || (v == Absent && v' == Waiting(0)) || (v.Waiting? && v' == Delivered(Some(CdcUpdater)))
  {
  }

  /** A history of views: each entry repeats the last or is one move from it. */
  ghost predicate Behaviour(maxAttempts: nat, views: seq<View>) {
    forall i :: 0 < i < |views| ==> views[i] == views[i - 1] || Move(maxAttempts, views[i - 1], views[i])
  }

  /** Every run of the system, projected to one event, is a behaviour of the automaton. */
  lemma {:induction false} RunRefines(cfg: Config, s: State, steps: seq<Step>, id: EventId) returns (views: seq<View>)
    requires cfg.Accepted() && Inv(cfg, s) && Run(cfg, s, steps)
    ensures |views| == |steps| + 1 && Behaviour(cfg.maxAttempts, views)
    ensures views[0] == ViewOf(s, id) && views[|steps|] == ViewOf(Final(cfg, s, steps), id)
    decreases |steps|
  {
    if steps == [] {
      views := [ViewOf(s, id)];
    } else {
      StepKeepsInv(cfg, s, steps[0]);
      StepRefines(cfg, s, steps[0], id);
      var rest := RunRefines(cfg, Apply(cfg, s, steps[0]), steps[1..], id);
      views := [ViewOf(s, id)] + rest;
    }
  }

  /** A delivery by the poller has its record in the log when it becomes visible. */
  lemma DeliveryHasRecord(cfg: Config, s: State, id: EventId)
    requires Reachable(cfg, s) && ViewOf(s, id) == Delivered(Some(Poller))
    ensures exists c :: c in s.calls && c.event.id == id && c.reply.Acked? && c.batch in Batches(s, Committed)
  {
    ReachableInv(cfg, s);
    assert PolledSent(s, id) by {
      if id in s.purged {
        assert s.purged[id].status.Sent?;
      }
    }
    TallyPositive(cfg, Delivery, s.calls, id, Batches(s, Committed));
  }
}
