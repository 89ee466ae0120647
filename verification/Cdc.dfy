/** CDC mode: the consumer reads change events of the outbox table and marks rows SENT; every
    mark is itself a change of the table and comes back as another event. */
module Cdc {
  import opened Wrappers
  import opened Outbox
  import opened OutboxRepo
  import opened Metrics
  import RelaySystem

  /** A message of the CDC topic. `Garbled` does not parse; `payload` and `after` carry the
      event id of the unwrapped form and of the standard envelope. */
  datatype Body = Garbled | Change(op: string, payload: Option<EventId>, after: Option<EventId>)
  datatype CdcMessage = CdcMessage(partition: int, offset: int, body: Body)

  datatype Verdict = Malformed | Ignored | ZeroId | Mark(ref: SentRef)

  /** What `handle` and `MarkDelivered` decide before the database is asked. */
  function Interpret(msg: CdcMessage): Verdict {
    if msg.body.Garbled? then Malformed
    else if msg.body.op == "d" || (msg.body.payload.None? && msg.body.after.None?) then Ignored
    else
      var fromPayload := if msg.body.payload.Some? then msg.body.payload.value else 0;
      var id := if fromPayload == 0 && msg.body.after.Some? then msg.body.after.value else fromPayload;
      if id == 0 then ZeroId else Mark(SentRef(id, msg.partition, msg.offset))
  }

  /** Exactly the parseable non-delete events that carry a non-zero id reach the table; the
      unwrapped id wins, and the reference is stamped with the CDC message's own position. */
  lemma MarksExactly(msg: CdcMessage, id: EventId)
    ensures Interpret(msg) == Mark(SentRef(id, msg.partition, msg.offset))
            <==> && id != 0 && msg.body.Change? && msg.body.op != "d"
                 && (msg.body.payload == Some(id)
                     || (msg.body.after == Some(id)
                         && (msg.body.payload.None? || msg.body.payload == Some(0))))
  {
  }

  // ----- The feedback loop as a step system ------------------------------------------------

  datatype State = State(rows: Table, topic: seq<CdcMessage>)

  /** Consume the message at `index`, in any order and any number of times; `feedback` is where the
      event caused by an effective mark lands. Or a posting procedure writes a row, and the
      connector publishes its creation. */
  datatype Step =
    | Consume(index: nat, fault: Fault, now: int, feedback: CdcMessage)
    | Insert(id: EventId, msg: Message, createdAt: int, created: CdcMessage)

  /** The row the step marks, if it is effective. */
  predicate Effective(s: State, step: Step, id: EventId) {
    && step.Consume? && step.index < |s.topic|
    && Interpret(s.topic[step.index]).Mark?
    && var ref := Interpret(s.topic[step.index]).ref;
       ref.event == id && id in s.rows && s.rows[id].Live()
       && step.fault.LetsCommit() && MarkFits(s.rows, ref, step.now)
  }

  /** A change event of row `id`, as the connector emits it. */
  predicate IsChangeOf(msg: CdcMessage, op: string, id: EventId) {
    msg.body == Change(op, None, Some(id))
  }

  function Target(s: State, step: Step): Option<EventId> {
    if step.Consume? && step.index < |s.topic| && Interpret(s.topic[step.index]).Mark?
    then Some(Interpret(s.topic[step.index]).ref.event) else None
  }

  predicate Enabled(s: State, step: Step) {
    match step
    case Consume(index, _, _, feedback) =>
      index < |s.topic| && (Target(s, step).Some? ==> IsChangeOf(feedback, "u", Target(s, step).value))
    case Insert(id, _, _, created) => 0 < id && id !in s.rows && IsChangeOf(created, "c", id)
  }

  function Apply(s: State, step: Step): State
    requires Enabled(s, step)
  {
    if step.Insert? then State(s.rows[step.id := NewRow(step.msg, step.createdAt)], s.topic + [step.created])
    else if Target(s, step).Some? && Effective(s, step, Target(s, step).value)
    then State(CdcMark(s.rows, Interpret(s.topic[step.index]).ref, step.now), s.topic + [step.feedback])
    else s
  }

  predicate Run(s: State, steps: seq<Step>)
    decreases |steps|
  {
    steps == [] || (Enabled(s, steps[0]) && Run(Apply(s, steps[0]), steps[1..]))
  }

  function Final(s: State, steps: seq<Step>): State
    requires Run(s, steps)
    decreases |steps|
  {
    if steps == [] then s else Final(Apply(s, steps[0]), steps[1..])
  }

  function LiveIds(rows: Table): set<EventId> {
    set id | id in rows && rows[id].Live()
  }

  lemma StepConserves(s: State, step: Step)
    requires Enabled(s, step)
    ensures |Apply(s, step).topic| + |LiveIds(Apply(s, step).rows)|
            == |s.topic| + |LiveIds(s.rows)| + if step.Insert? then 2 else 0
    ensures s.topic <= Apply(s, step).topic
  {
    if step.Insert? {
      InsertedIsLive(s.rows, step.id, step.msg, step.createdAt);
    } else if Target(s, step).Some? && Effective(s, step, Target(s, step).value) {
      MarkedIsNotLive(s.rows, Interpret(s.topic[step.index]).ref, step.now);
    }
  }

  lemma InsertedIsLive(rows: Table, id: EventId, msg: Message, createdAt: int)
    requires id !in rows
    ensures |LiveIds(rows[id := NewRow(msg, createdAt)])| == |LiveIds(rows)| + 1
  {
    assert LiveIds(rows[id := NewRow(msg, createdAt)]) == LiveIds(rows) + {id};
  }

  lemma MarkedIsNotLive(rows: Table, ref: SentRef, now: int)
    requires ref.event in rows && rows[ref.event].Live()
    ensures |LiveIds(CdcMark(rows, ref, now))| == |LiveIds(rows)| - 1
  {
    assert LiveIds(CdcMark(rows, ref, now)) == LiveIds(rows) - {ref.event};
  }

  function Inserts(steps: seq<Step>): nat {
    if steps == [] then 0 else (if steps[0].Insert? then 1 else 0) + Inserts(steps[1..])
  }

  /** Feedback is bounded: whatever is inserted, consumed or replayed, in any order, the topic
      grows by exactly the inserts and the rows that stop being live. */
  lemma {:induction false} FeedbackBounded(s: State, steps: seq<Step>)
    requires Run(s, steps)
    ensures var settled := |LiveIds(s.rows)| + Inserts(steps) - |LiveIds(Final(s, steps).rows)|;
            |Final(s, steps).topic| - |s.topic| == Inserts(steps) + settled
    ensures s.topic <= Final(s, steps).topic
    decreases |steps|
  {
    if steps != [] {
      StepConserves(s, steps[0]);
      FeedbackBounded(Apply(s, steps[0]), steps[1..]);
    }
  }

  /** The first consumed message that can mark row `id`, with the time it did. */
  function FirstMark(s: State, steps: seq<Step>, id: EventId): Option<(SentRef, int)>
    requires Run(s, steps)
    decreases |steps|
  {
    if steps == [] then None
    else if Effective(s, steps[0], id)
    then Some((Interpret(s.topic[steps[0].index]).ref, steps[0].now))
    else FirstMark(Apply(s, steps[0]), steps[1..], id)
  }

  lemma StepMarks(s: State, step: Step, id: EventId)
    requires Enabled(s, step) && id in s.rows
    ensures id in Apply(s, step).rows
    ensures Apply(s, step).rows[id]
            == if Effective(s, step, id) then AfterCdc(s.rows[id], Interpret(s.topic[step.index]).ref, step.now)
               else s.rows[id]
  {
  }

  lemma {:induction false} SettledRowsStay(s: State, steps: seq<Step>, id: EventId)
    requires Run(s, steps) && id in s.rows && !s.rows[id].Live()
    ensures id in Final(s, steps).rows && Final(s, steps).rows[id] == s.rows[id]
    ensures FirstMark(s, steps, id) == None
    decreases |steps|
  {
    if steps != [] {
      StepMarks(s, steps[0], id);
      SettledRowsStay(Apply(s, steps[0]), steps[1..], id);
    }
  }

  /** Each row is marked at most once, by the first message that can mark it: its attempts grow
      by one and its stamps are that message's, however often messages are replayed. */
  lemma {:induction false} FirstMarkWins(s: State, steps: seq<Step>, id: EventId)
    requires Run(s, steps) && id in s.rows
    ensures id in Final(s, steps).rows
    ensures Final(s, steps).rows[id]
            == match FirstMark(s, steps, id)
               case None => s.rows[id]
               case Some((ref, now)) => AfterCdc(s.rows[id], ref, now)
    decreases |steps|
  {
    if steps != [] {
      StepMarks(s, steps[0], id);
      if Effective(s, steps[0], id) {
        SettledRowsStay(Apply(s, steps[0]), steps[1..], id);
      } else {
        FirstMarkWins(Apply(s, steps[0]), steps[1..], id);
      }
    }
  }

  /** A marked row carries the position of its first effective message, one more attempt, and
      the CDC relay's name; its message and failure stamp are its own. */
  lemma MarkedRowStamps(s: State, steps: seq<Step>, id: EventId)
    requires Run(s, steps) && id in s.rows && FirstMark(s, steps, id).Some?
    ensures id in Final(s, steps).rows
    ensures var (ref, now) := FirstMark(s, steps, id).value;
            var r := Final(s, steps).rows[id];
            && r.status.Sent? && r.attempts == s.rows[id].attempts + 1 && r.sentAt == Some(now)
            && r.partition == Some(ref.partition) && r.offset == Some(ref.offset) && r.settledBy == Some(CdcUpdater)
            && r.msg == s.rows[id].msg && r.createdAt == s.rows[id].createdAt
            && r.lastAttemptAt == s.rows[id].lastAttemptAt
  {
    FirstMarkWins(s, steps, id);
  }

  /** Replaying a message changes nothing exactly when its mark does not take effect or its row is
      no longer live (or no longer there). */
  lemma ReplayIsNoOp(s: State, step: Step)
    requires step.Consume? && Enabled(s, step)
    ensures Apply(s, step) == s <==>
            (Target(s, step).Some? ==>
               var id := Target(s, step).value;
               id !in s.rows || !s.rows[id].Live()
               || !step.fault.LetsCommit() || !MarkFits(s.rows, Interpret(s.topic[step.index]).ref, step.now))
  {
    assert |s.topic + [step.feedback]| == |s.topic| + 1;
  }

  /** Step `step` consumed a message that names row `id`. */
  predicate Names(topic: seq<CdcMessage>, step: Step, id: EventId) {
    && step.Consume? && step.index < |topic|
    && Interpret(topic[step.index]).Mark? && Interpret(topic[step.index]).ref.event == id
  }

  /** Its mark did not take effect on row `r`. */
  predicate Failing(topic: seq<CdcMessage>, step: Step, r: Row) {
    step.Consume? && step.index < |topic| && Interpret(topic[step.index]).Mark? &&
    (!step.fault.LetsCommit() || !StorableRow(AfterCdc(r, Interpret(topic[step.index]).ref, step.now)))
  }

  /** A failed message is marked as consumed all the same, so a live row stays live for good
      exactly when no mark by a consumed message that names it took effect. */
  lemma {:induction false} StrandedExactly(s: State, steps: seq<Step>, id: EventId)
    requires Run(s, steps) && id in s.rows && s.rows[id].Live()
    ensures id in Final(s, steps).rows
    ensures Final(s, steps).rows[id].Live()
            <==> forall k :: 0 <= k < |steps| && Names(Final(s, steps).topic, steps[k], id) ==>
                   Failing(Final(s, steps).topic, steps[k], s.rows[id])
    decreases |steps|
  {
    FirstMarkWins(s, steps, id);
    if steps != [] {
      var s' := Apply(s, steps[0]);
      StepMarks(s, steps[0], id);
      FeedbackBounded(s', steps[1..]);
      StepConserves(s, steps[0]);
      assert steps[0].Consume? ==> Final(s, steps).topic[steps[0].index] == s.topic[steps[0].index];
      if Effective(s, steps[0], id) {
        SettledRowsStay(s', steps[1..], id);
        assert Names(Final(s, steps).topic, steps[0], id);
      } else {
        StrandedExactly(s', steps[1..], id);
        forall k | 0 <= k < |steps| && Names(Final(s, steps).topic, steps[k], id)
                   && Final(s, steps).rows[id].Live()
          ensures Failing(Final(s, steps).topic, steps[k], s.rows[id])
        {
          if k > 0 {
            assert steps[k] == steps[1..][k - 1];
          }
        }
      }
    }
  }

  /** A counted error does not mean that nothing happened: a mark errs and settles its row at once
      exactly when it took effect and its reply was lost. */
  lemma ErrsYetSettles(s: State, step: Step, id: EventId)
    requires Enabled(s, step) && Names(s.topic, step, id) && id in s.rows && s.rows[id].Live()
    ensures id in Apply(s, step).rows
    ensures Errs(s, step) && !Apply(s, step).rows[id].Live()
            <==> step.fault.ReplyLost? && MarkFits(s.rows, Interpret(s.topic[step.index]).ref, step.now)
  {
    StepMarks(s, step, id);
  }

  /** The only message of a row counts as an error, and the row is SENT with that message's stamps. */
  lemma LostReplyStillSettles(r: Row, feedback: CdcMessage)
    requires r.Live() && r.attempts < SMALLINT_MAX && IsChangeOf(feedback, "u", 1)
    ensures var s := State(map[1 := r], [CdcMessage(0, 0, Change("c", None, Some(1)))]);
            var steps := [Consume(0, ReplyLost, 0, feedback)];
            && Run(s, steps) && ErrorCount(s, steps) == 1
            && 1 in Final(s, steps).rows && Final(s, steps).rows[1] == AfterCdc(r, SentRef(1, 0, 0), 0)
  {
    var step := Consume(0, ReplyLost, 0, feedback);
    assert [step][1..] == [];
    var s := State(map[1 := r], [CdcMessage(0, 0, Change("c", None, Some(1)))]);
    StepMarks(s, step, 1);
  }

  /** One transient database error on a row's only message strands the row. */
  lemma OneErrorStrands(r: Row, feedback: CdcMessage)
    requires r.Live() && IsChangeOf(feedback, "u", 1)
    ensures var s := State(map[1 := r], [CdcMessage(0, 0, Change("c", None, Some(1)))]);
            var steps := [Consume(0, StatementFails, 0, feedback)];
            Run(s, steps) && Final(s, steps) == s
  {
    assert [Consume(0, StatementFails, 0, feedback)][1..] == [];
  }

  // ----- The consumer ----------------------------------------------------------------------

  datatype Error = NoError | UnmarshalFailed | ZeroEventId | DatabaseFailed

  /** What surrounds one delivery: a row a posting procedure may write before it and where its
      creation lands in the topic, how the database call would fail, and where the feedback
      event of a mark lands. */
  datatype World = World(posted: Option<(EventId, Message)>, createdPartition: int, createdOffset: int,
                         fault: Fault, partition: int, offset: int)

  /** A consumed message that counts as an error; everything else counts as a success. */
  predicate Errs(s: State, step: Step) {
    step.Consume? && step.index < |s.topic| &&
    match Interpret(s.topic[step.index])
    case Malformed => true
    case Ignored => false
    case ZeroId => true
    case Mark(ref) =>
      !step.fault.NoFault? || !MarkFits(s.rows, ref, step.now)
  }

  /** Exactly which messages count as errors: garbled ones, changes that carry an image but no id,
      and changes of a row when the database call fails or the stamps do not fit the row's columns.
      Deletes, and changes without an image, never do, whatever the database does. */
  lemma ErrsExactly(s: State, step: Step)
    requires step.Consume? && step.index < |s.topic|
    ensures var msg := s.topic[step.index];
            Errs(s, step) <==>
            match msg.body
            case Garbled => true
            case Change(op, payload, after) =>
              && op != "d" && (payload.Some? || after.Some?)
              && var id := if payload.Some? && payload.value != 0 then payload.value
                           else if after.Some? then after.value else 0;
                 || id == 0
                 || step.fault != NoFault
                 || (id in s.rows && (s.rows[id].status == Pending || s.rows[id].status == Failed)
                     && (s.rows[id].attempts >= 32767 || msg.partition > 32767))
  {
  }

  /** The messages a run consumed, by index. */
  function Consumed(steps: seq<Step>): seq<nat> {
    if steps == [] then []
    else Consumed(steps[..|steps| - 1]) + if steps[|steps| - 1].Consume? then [steps[|steps| - 1].index] else []
  }

  function UpTo(from: nat, to: nat): seq<nat>
    requires from <= to
  {
    seq(to - from, k requires 0 <= k => from + k)
  }

  lemma ConsumedOne(steps: seq<Step>, step: Step)
    ensures Consumed(steps + [step]) == Consumed(steps) + if step.Consume? then [step.index] else []
  {
    assert (steps + [step])[..|steps|] == steps;
  }

  function ErrorCount(s: State, steps: seq<Step>): (n: nat)
    requires Run(s, steps)
    ensures n <= |steps|
    decreases |steps|
  {
    if steps == [] then 0
    else (if Errs(s, steps[0]) then 1 else 0) + ErrorCount(Apply(s, steps[0]), steps[1..])
  }

  lemma {:induction false} RunAppend(s: State, steps: seq<Step>, step: Step)
    requires Run(s, steps) && Enabled(Final(s, steps), step)
    ensures Run(s, steps + [step]) && Final(s, steps + [step]) == Apply(Final(s, steps), step)
    ensures ErrorCount(s, steps + [step]) == ErrorCount(s, steps) + if Errs(Final(s, steps), step) then 1 else 0
    decreases |steps|
  {
    if steps == [] {
      assert [step][1..] == [];
    } else {
      RunAppend(Apply(s, steps[0]), steps[1..], step);
      assert (steps + [step])[1..] == steps[1..] + [step];
    }
  }

  /** The table after a mark with this outcome of its call. */
  function Marked(rows: Table, ref: SentRef, now: int, fault: Fault): Table {
    if fault.LetsCommit() && MarkFits(rows, ref, now) then CdcMark(rows, ref, now) else rows
  }

  /** The counters after some messages, `failed` of which were errors. */
  function Counted(m: RelaySystem.Counters, failed: nat, succeeded: nat): RelaySystem.Counters {
    m.(failed := m.failed + failed, processed := m.processed + succeeded, published := m.published + succeeded)
  }

  // ----- A session, as its environment plays it --------------------------------------------

  /** Where a run leads, if it is one. */
  function Play(s: State, steps: seq<Step>): State {
    if Run(s, steps) then Final(s, steps) else s
  }

  /** A posting procedure writes a row, if its event id is new. */
  predicate Posts(s: State, w: World) {
    w.posted.Some? && 0 < w.posted.value.0 && w.posted.value.0 !in s.rows
  }

  lemma PlayIsFinal(s: State, steps: seq<Step>)
    requires Run(s, steps)
    ensures Play(s, steps) == Final(s, steps)
  {
  }

  function Posted(s: State, w: World, now: int): seq<Step> {
    if Posts(s, w) then
      var (id, msg) := w.posted.value;
      [Insert(id, msg, now, CdcMessage(w.createdPartition, w.createdOffset, Change("c", None, Some(id))))]
    else []
  }

  /** The delivery of message `i`, with the fault its database call meets and the server's clock. */
  function Delivery(s: State, i: nat, w: World, now: int): Step {
    var id := if i < |s.topic| && Interpret(s.topic[i]).Mark? then Interpret(s.topic[i]).ref.event else 0;
    Consume(i, w.fault, now, CdcMessage(w.partition, w.offset, Change("u", None, Some(id))))
  }

  /** One turn of the consume loop. */
  function Turn(s: State, i: nat, w: World, now: int): seq<Step> {
    Posted(s, w, now) + [Delivery(Play(s, Posted(s, w, now)), i, w, now)]
  }

  /** Bounds how many messages are still to come from rows that are live now. */
  function Size(s: State): (n: nat)
    ensures n >= |s.topic|
  {
    2 * |LiveIds(s.rows)| + |s.topic|
  }

  /** Posting extends a run by its insert, if any. */
  lemma PostedExtends(s: State, run: seq<Step>, w: World, now: int)
    requires Run(s, run)
    ensures var here := Final(s, run);
            var posted := Posted(here, w, now);
            && Run(s, run + posted) && Final(s, run + posted) == Play(here, posted)
            && Play(here, posted)
               == (if posted == [] then here
                   else State(here.rows[posted[0].id := NewRow(posted[0].msg, now)], here.topic + [posted[0].created]))
            && ErrorCount(s, run + posted) == ErrorCount(s, run) && Consumed(run + posted) == Consumed(run)
            && here.topic <= Play(here, posted).topic
            && Size(Play(here, posted)) <= Size(here) + if w.posted.Some? then 3 else 0
  {
    var here := Final(s, run);
    var posted := Posted(here, w, now);
    if posted == [] {
      assert run + posted == run;
    } else {
      var step := posted[0];
      assert posted == [step];
      RunAppend(s, run, step);
      RunAppend(here, [], step);
      assert [] + [step] == [step];
      ConsumedOne(run, step);
      assert Consumed(run) + [] == Consumed(run);
      StepConserves(here, step);
    }
  }

  /** A delivery extends a run by its consume step. */
  lemma DeliveryExtends(s: State, run: seq<Step>, step: Step)
    requires Run(s, run) && step.Consume? && Enabled(Final(s, run), step)
    ensures var here := Final(s, run);
            && Run(s, run + [step]) && Final(s, run + [step]) == Apply(here, step)
            && ErrorCount(s, run + [step]) == ErrorCount(s, run) + (if Errs(here, step) then 1 else 0)
            && Consumed(run + [step]) == Consumed(run) + [step.index]
            && here.topic <= Apply(here, step).topic && Size(Apply(here, step)) <= Size(here)
  {
    RunAppend(s, run, step);
    ConsumedOne(run, step);
    StepConserves(Final(s, run), step);
  }

  /** `turns` turns from message `from` on. */
  function Session(s: State, from: nat, world: nat -> World, now: int, turns: nat): seq<Step> {
    if turns == 0 then []
    else
      var front := Session(s, from, world, now, turns - 1);
      var i := from + turns - 1;
      front + Turn(Play(s, front), i, world(i), now)
  }

  lemma SessionMore(s: State, from: nat, world: nat -> World, now: int, i: nat)
    requires from <= i
    ensures var front := Session(s, from, world, now, i - from);
            Session(s, from, world, now, i + 1 - from) == front + Turn(Play(s, front), i, world(i), now)
    ensures UpTo(from, i + 1) == UpTo(from, i) + [i]
  {
  }

  lemma SessionStarts(s: State, from: nat, world: nat -> World, now: int)
    ensures Session(s, from, world, now, 0) == [] && Consumed([]) == UpTo(from, from)
  {
  }

  /** The `k`-th turn delivers its message with the environment's fault and clock. */
  lemma {:induction false} SessionDelivers(s: State, from: nat, world: nat -> World, now: int, turns: nat, i: nat)
    returns (k: nat)
    requires from <= i < from + turns
    ensures var run := Session(s, from, world, now, turns);
            && k + 1 == |Session(s, from, world, now, i + 1 - from)| <= |run|
            && run[k].Consume? && run[k].index == i && run[k].fault == world(i).fault && run[k].now == now
  {
    var front := Session(s, from, world, now, turns - 1);
    if i == from + turns - 1 {
      k := |Session(s, from, world, now, turns)| - 1;
    } else {
      k := SessionDelivers(s, from, world, now, turns - 1, i);
    }
  }

  /** A delivery whose database call takes effect settles its row: with message `i` of the session
      naming a live row, a call that is let through and stamps that fit, the row is not live when
      the session ends, whatever else was consumed, posted or failed. */
  lemma SessionSettles(s: State, from: nat, world: nat -> World, now: int, turns: nat, i: nat, id: EventId)
    requires Run(s, Session(s, from, world, now, turns)) && id in s.rows && s.rows[id].Live()
    requires from <= i < from + turns
    requires var topic := Final(s, Session(s, from, world, now, turns)).topic;
             i < |topic| && Interpret(topic[i]).Mark? && Interpret(topic[i]).ref.event == id
             && world(i).fault.LetsCommit() && StorableRow(AfterCdc(s.rows[id], Interpret(topic[i]).ref, now))
    ensures var f := Final(s, Session(s, from, world, now, turns));
            id in f.rows && !f.rows[id].Live()
  {
    var run := Session(s, from, world, now, turns);
    var k := SessionDelivers(s, from, world, now, turns, i);
    StrandedExactly(s, run, id);
    assert Names(Final(s, run).topic, run[k], id) && !Failing(Final(s, run).topic, run[k], s.rows[id]);
  }

  lemma {:induction false} RunSplit(s: State, first: seq<Step>, second: seq<Step>)
    requires Run(s, first + second)
    ensures Run(s, first) && Run(Final(s, first), second)
    ensures Final(s, first + second) == Final(Final(s, first), second)
    decreases |first|
  {
    hide Apply;
    hide Enabled;
    if first == [] {
      assert first + second == second;
    } else {
      assert (first + second)[1..] == first[1..] + second;
      RunSplit(Apply(s, first[0]), first[1..], second);
    }
  }

  lemma {:induction false} SessionGrows(s: State, from: nat, world: nat -> World, now: int, fewer: nat, turns: nat)
    requires fewer <= turns
    ensures Session(s, from, world, now, fewer) <= Session(s, from, world, now, turns)
  {
    hide Turn;
    hide Play;
    if fewer < turns {
      SessionGrows(s, from, world, now, fewer, turns - 1);
    }
  }

  /** Turn `i` posts a row: the rest of the session runs from a state that has it, and whose topic
      ends with its creation. */
  lemma TurnPosts(s: State, from: nat, world: nat -> World, now: int, turns: nat, i: nat, id: EventId, msg: Message)
    returns (front: seq<Step>, mid: State, rest: seq<Step>)
    requires from <= i < from + turns && Run(s, Session(s, from, world, now, turns))
    requires world(i).posted == Some((id, msg)) && 0 < id
    requires id !in Play(s, Session(s, from, world, now, i - from)).rows
    ensures var before := Play(s, Session(s, from, world, now, i - from));
            && mid == State(before.rows[id := NewRow(msg, now)],
                            before.topic + [CdcMessage(world(i).createdPartition, world(i).createdOffset,
                                                       Change("c", None, Some(id)))])
    ensures Run(mid, rest) && Final(mid, rest) == Final(s, Session(s, from, world, now, turns))
    ensures Session(s, from, world, now, turns) == front + rest && i < |mid.topic|
    ensures |front| + 1 == |Session(s, from, world, now, i + 1 - from)|
  {
    hide Run;
    hide Final;
    hide Session;
    hide Turn;
    hide Play;
    hide NewRow;
    var run, early := Session(s, from, world, now, turns), Session(s, from, world, now, i - from);
    var next := Session(s, from, world, now, i + 1 - from);
    SessionGrows(s, from, world, now, i - from, turns);
    SessionGrows(s, from, world, now, i + 1 - from, turns);
    SessionMore(s, from, world, now, i);
    assert run == early + run[|early|..];
    RunSplit(s, early, run[|early|..]);
    PlayIsFinal(s, early);
    var step;
    step, mid := TurnIs(Final(s, early), i, world(i), now, id, msg);
    front, rest := early + [step], run[|early| + 1..];
    assert |next| == |early| + 2 && next[|early|] == step;
    assert front == next[..|front|] == run[..|front|];
    assert run == front + rest;
    RunSplit(s, front, rest);
    RunStep(s, early, step, mid);
    assert rest[0] == run[|front|] == next[|front|];
    RunStart(mid, rest);
  }

  lemma TurnIs(before: State, i: nat, w: World, now: int, id: EventId, msg: Message) returns (step: Step, mid: State)
    requires w.posted == Some((id, msg)) && 0 < id && id !in before.rows
    ensures var created := CdcMessage(w.createdPartition, w.createdOffset, Change("c", None, Some(id)));
            step == Insert(id, msg, now, created)
            && mid == State(before.rows[id := NewRow(msg, now)], before.topic + [created])
    ensures Enabled(before, step) && Apply(before, step) == mid
    ensures var turn := Turn(before, i, w, now);
            |turn| == 2 && turn[0] == step && turn[1].Consume? && turn[1].index == i
  {
    step := Posted(before, w, now)[0];
    mid := Apply(before, step);
  }

  lemma RunStep(s: State, early: seq<Step>, step: Step, mid: State)
    requires Run(s, early) && Enabled(Final(s, early), step) && Apply(Final(s, early), step) == mid
    ensures Run(s, early + [step]) && Final(s, early + [step]) == mid
  {
    RunAppend(s, early, step);
  }

  lemma RunStart(s: State, steps: seq<Step>)
    requires Run(s, steps) && steps != [] && steps[0].Consume?
    ensures steps[0].index < |s.topic|
  {
  }

  /** With a database that lets every mark commit, a consumer that has caught up leaves no row
      behind that was posted meanwhile: each is SENT, with the message it was posted with and the
      position of a change event of its own. */
  lemma PostedAreSettled(s: State, from: nat, world: nat -> World, now: int, turns: nat, i: nat, id: EventId,
                         msg: Message)
    requires Run(s, Session(s, from, world, now, turns))
    requires from <= i < from + turns == |Final(s, Session(s, from, world, now, turns)).topic|
    requires world(i).posted == Some((id, msg)) && 0 < id
    requires id !in Play(s, Session(s, from, world, now, i - from)).rows
    requires forall k :: from <= k < from + turns ==> world(k).fault.LetsCommit()
    requires forall m :: m in Final(s, Session(s, from, world, now, turns)).topic ==> m.partition <= 32767
    ensures var f := Final(s, Session(s, from, world, now, turns));
            && id in f.rows
            && var r := f.rows[id];
               && r.status == Sent && r.attempts == 1 && r.msg == msg && r.createdAt == now && r.sentAt == Some(now)
               && r.lastAttemptAt == None && r.settledBy == Some(CdcUpdater)
               && exists m :: m in f.topic && Interpret(m) == Mark(SentRef(id, m.partition, m.offset))
                              && r.partition == Some(m.partition) && r.offset == Some(m.offset)
  {
    hide Run;
    hide Final;
    hide Session;
    hide Play;
    hide FirstMark;
    hide LiveIds;
    var run := Session(s, from, world, now, turns);
    var front, mid, rest := TurnPosts(s, from, world, now, turns, i, id, msg);
    var j := |mid.topic| - 1;
    FeedbackBounded(mid, rest);
    var k := SessionDelivers(s, from, world, now, turns, j);
    SessionGrows(s, from, world, now, i + 1 - from, j + 1 - from);
    assert run[k] == rest[k - |front|];
    NewRowIsMarked(mid, rest, id, k - |front|);
    MarkedRowStamps(mid, rest, id);
    SessionClock(s, from, world, now, turns);
    assert forall n :: 0 <= n < |rest| ==> rest[n] == run[n + |front|] && rest[n] in run;
    MarkNamesRow(mid, rest, id, now);
  }

  lemma {:induction false} SessionClock(s: State, from: nat, world: nat -> World, now: int, turns: nat)
    ensures forall step :: step in Session(s, from, world, now, turns) && step.Consume? ==> step.now == now
  {
    if turns > 0 {
      SessionClock(s, from, world, now, turns - 1);
    }
  }

  /** A new row whose creation is consumed is marked. */
  lemma NewRowIsMarked(s: State, steps: seq<Step>, id: EventId, k: nat)
    requires Run(s, steps) && id != 0 && id in s.rows && s.rows[id].status == Pending && s.rows[id].attempts == 0
    requires |s.topic| > 0 && IsChangeOf(s.topic[|s.topic| - 1], "c", id)
    requires k < |steps| && steps[k].Consume? && steps[k].index == |s.topic| - 1 && steps[k].fault.LetsCommit()
    requires s.topic <= Final(s, steps).topic && s.topic[|s.topic| - 1].partition <= SMALLINT_MAX
    ensures FirstMark(s, steps, id).Some?
  {
    hide FirstMark;
    hide LiveIds;
    var topic := Final(s, steps).topic;
    StrandedExactly(s, steps, id);
    assert Names(topic, steps[k], id) && !Failing(topic, steps[k], s.rows[id]);
    FirstMarkWins(s, steps, id);
  }

  /** The first effective message is one of the topic's, and names the row. */
  lemma {:induction false} MarkNamesRow(s: State, steps: seq<Step>, id: EventId, now: int)
    requires Run(s, steps) && FirstMark(s, steps, id).Some?
    requires forall k :: 0 <= k < |steps| && steps[k].Consume? ==> steps[k].now == now
    ensures FirstMark(s, steps, id).value.1 == now
    ensures exists m :: m in Final(s, steps).topic && Interpret(m) == Mark(FirstMark(s, steps, id).value.0)
                        && FirstMark(s, steps, id).value.0 == SentRef(id, m.partition, m.offset)
    decreases |steps|
  {
    if Effective(s, steps[0], id) {
      FeedbackBounded(s, steps);
      assert s.topic[steps[0].index] == Final(s, steps).topic[steps[0].index];
    } else {
      MarkNamesRow(Apply(s, steps[0]), steps[1..], id, now);
    }
  }

  /** The consumer's marks are steps of the relay's system, so what holds of every run of the relay
      holds while the consumer runs. */
  lemma MarkIsSystemStep(cfg: Config, s: RelaySystem.State, ref: SentRef, fault: Fault)
    requires ref.event !in RelaySystem.LockedIds(s)
    ensures var step := RelaySystem.CdcMarkSent(ref);
            && (RelaySystem.Enabled(cfg, s, step) <==> MarkFits(s.rows, ref, s.clock))
            && Marked(s.rows, ref, s.clock, fault)
               == if fault.LetsCommit() && RelaySystem.Enabled(cfg, s, step)
                  then RelaySystem.Apply(cfg, s, step).rows else s.rows
  {
  }

  class CdcHandler {
    const db: Database
    const metrics: Metrics
    var topic: seq<CdcMessage>  // the connector appends the event of every table change
    var committed: nat       // offset up to which messages are marked as consumed

    constructor (db: Database, metrics: Metrics, topic: seq<CdcMessage>)
      ensures this.db == db && this.metrics == metrics && this.topic == topic && committed == 0
    {
      this.db, this.metrics, this.topic, committed := db, metrics, topic, 0;
    }

    function Snapshot(): State
      reads this`topic, db`rows
    {
      State(db.rows, topic)
    }

    /** `MarkDelivered`. */
    method MarkDelivered(ref: SentRef, fault: Fault) returns (err: Error)
      requires ref.event !in db.locked
      modifies db`rows
      ensures ref.event == 0 ==> err == ZeroEventId && db.rows == old(db.rows)
      ensures ref.event != 0 ==>
                && (err == NoError || err == DatabaseFailed)
                && db.rows == Marked(old(db.rows), ref, db.clock, fault)
                && (err == NoError <==> fault.NoFault? && MarkFits(old(db.rows), ref, db.clock))
    {
      if ref.event == 0 {
        return ZeroEventId;
      }
      var ok := db.MarkSent(ref, fault);
      err := if ok then NoError else DatabaseFailed;
    }

    /** `handle`. */
    method Handle(msg: CdcMessage, fault: Fault) returns (err: Error)
      requires db.locked == {}
      modifies db`rows
      ensures match Interpret(msg)
              case Malformed => err == UnmarshalFailed && db.rows == old(db.rows)
              case Ignored => err == NoError && db.rows == old(db.rows)
              case ZeroId => err == ZeroEventId && db.rows == old(db.rows)
              case Mark(ref) =>
                && err == (if fault.NoFault? && MarkFits(old(db.rows), ref, db.clock) then NoError else DatabaseFailed)
                && db.rows == Marked(old(db.rows), ref, db.clock, fault)
      ensures err == UnmarshalFailed <==> msg.body.Garbled?
      ensures err == ZeroEventId <==>
                && msg.body.Change? && msg.body.op != "d" && (msg.body.payload.Some? || msg.body.after.Some?)
                && (msg.body.payload.None? || msg.body.payload.value == 0)
                && (msg.body.after.None? || msg.body.after.value == 0)
      ensures msg.body.Change? && (msg.body.op == "d" || (msg.body.payload.None? && msg.body.after.None?)) ==>
                err == NoError && db.rows == old(db.rows)
    {
      if msg.body.Garbled? {
        return UnmarshalFailed;
      }
      if msg.body.op == "d" || (msg.body.payload.None? && msg.body.after.None?) {
        return NoError;
      }
      var eventId: EventId := 0;
      if msg.body.payload.Some? {
        eventId := msg.body.payload.value;
      }
      if eventId == 0 && msg.body.after.Some? {
        eventId := msg.body.after.value;
      }
      err := MarkDelivered(SentRef(eventId, msg.partition, msg.offset), fault);
    }

    /** The part of a turn that delivers message `i`. */
    method ConsumeOne(i: nat, w: World) returns (ghost step: Step)
      requires db.locked == {} && i < |topic|
      modifies db`rows, this`topic, metrics
      ensures step == Delivery(old(Snapshot()), i, w, db.clock)
      ensures Enabled(old(Snapshot()), step) && Snapshot() == Apply(old(Snapshot()), step)
      ensures var errs := if Errs(old(Snapshot()), step) then 1 else 0;
              && metrics.Value() == Counted(old(metrics.Value()), errs, 1 - errs)
              && metrics.kafkaFailed == old(metrics.kafkaFailed)
              && forall kind: string ::
                   metrics.ErrorCount(kind) == old(metrics.ErrorCount(kind)) + if kind == "cdc_process" then errs else 0
    {
      var msg := topic[i];
      var before := db.rows;
      var id := if Interpret(msg).Mark? then Interpret(msg).ref.event else 0;
      var feedback := CdcMessage(w.partition, w.offset, Change("u", None, Some(id)));
      step := Consume(i, w.fault, db.clock, feedback);
      var err := Handle(msg, w.fault);
      if err != NoError {
        metrics.IncrementErrors("cdc_process");
      } else {
        metrics.IncrementSuccess();
      }
      if db.rows != before {
        topic := topic + [feedback];
      }
    }

    /** The run so far leads here, and every message of it was counted once: as processed and
        published, or as failed under its own kind of error. */
    ghost predicate Follows(s: State, run: seq<Step>, m: RelaySystem.Counters, errors: map<string, nat>)
      reads this`topic, db`rows, metrics
    {
      Run(s, run) && Snapshot() == Final(s, run) && Tallied(ErrorCount(s, run), |Consumed(run)|, m, errors)
    }

    /** `consumed` messages, `failed` of them errors, since the counters stood at `m` and `errors`. */
    ghost predicate Tallied(failed: nat, consumed: nat, m: RelaySystem.Counters, errors: map<string, nat>)
      reads metrics
    {
      && failed <= consumed && metrics.Value() == Counted(m, failed, consumed - failed)
      && forall kind: string ::
           metrics.ErrorCount(kind)
           == (if kind in errors then errors[kind] else 0) + if kind == "cdc_process" then failed else 0
    }

    lemma FollowsNothing()
      ensures Follows(Snapshot(), [], metrics.Value(), metrics.errors)
    {
    }

    /** A posting procedure commits a row, if its event id is new, and the connector publishes it. */
    method LetProducersRun(w: World)
      modifies db`rows, this`topic
      ensures Snapshot() == Play(old(Snapshot()), Posted(old(Snapshot()), w, db.clock))
    {
      PostedExtends(Snapshot(), [], w, db.clock);
      if w.posted.Some? && 0 < w.posted.value.0 && w.posted.value.0 !in db.rows {
        var (id, msg) := w.posted.value;
        db.rows := db.rows[id := NewRow(msg, db.clock)];
        topic := topic + [CdcMessage(w.createdPartition, w.createdOffset, Change("c", None, Some(id)))];
      }
    }

    /** One turn of the loop with what the producers do meanwhile, appended to the run so far. */
    method ConsumeNext(i: nat, w: World, ghost s: State, ghost run: seq<Step>, ghost m: RelaySystem.Counters,
                       ghost errors: map<string, nat>)
      returns (ghost run': seq<Step>)
      requires db.locked == {} && i < |topic| && Follows(s, run, m, errors)
      modifies db`rows, this`topic, metrics
      ensures Follows(s, run', m, errors) && Consumed(run') == Consumed(run) + [i]
      ensures run' == run + Turn(old(Snapshot()), i, w, db.clock) == run + Turn(Play(s, run), i, w, db.clock)
      ensures |topic| > i && Size(Snapshot()) <= Size(old(Snapshot())) + if w.posted.Some? then 3 else 0
    {
      hide Posted;
      hide Play;
      hide Run;
      hide Final;
      hide ErrorCount;
      hide Consumed;
      hide Apply;
      hide Enabled;
      hide Errs;
      hide Size;
      hide Interpret;
      ghost var posted := Posted(Snapshot(), w, db.clock);
      PlayIsFinal(s, run);
      PostedExtends(s, run, w, db.clock);
      LetProducersRun(w);
      ghost var step := ConsumeOne(i, w);
      DeliveryExtends(s, run + posted, step);
      run' := run + posted + [step];
    }

    /** `ConsumeClaim`: consumes the topic in order from `from`, including the events its own
        marks cause and those of rows written meanwhile, until it has caught up, and marks every
        message as consumed whether or not it failed. Once the producers are quiet it ends,
        although each effective mark lengthens the topic: live rows run out. What it did is
        determined by its environment (`Session`). */
    method ConsumeClaim(from: nat, world: nat -> World, ghost quiet: nat) returns (ghost run: seq<Step>)
      requires db.locked == {} && from <= |topic|
      requires forall i :: i >= quiet ==> world(i).posted.None?
      modifies db`rows, this, metrics
      ensures committed == |topic| >= from && Consumed(run) == UpTo(from, |topic|)
      ensures run == Session(old(Snapshot()), from, world, db.clock, |topic| - from)
      ensures Follows(old(Snapshot()), run, old(metrics.Value()), old(metrics.errors))
    {
      hide Follows;
      hide Session;
      hide Turn;
      hide Play;
      hide UpTo;
      hide Consumed;
      hide Size;
      run := [];
      var i := from;
      SessionStarts(Snapshot(), from, world, db.clock);
      FollowsNothing();
      while i < |topic|
        invariant from <= i <= |topic| && db.locked == {} && Consumed(run) == UpTo(from, i)
        invariant run == Session(old(Snapshot()), from, world, db.clock, i - from)
        invariant Follows(old(Snapshot()), run, old(metrics.Value()), old(metrics.errors))
        decreases Size(Snapshot()) - i + if i < quiet then 4 * (quiet - i) else 0
      {
        SessionMore(old(Snapshot()), from, world, db.clock, i);
        run := ConsumeNext(i, world(i), old(Snapshot()), run, old(metrics.Value()), old(metrics.errors));
        i := i + 1;
      }
      committed := i;
    }
  }
}
