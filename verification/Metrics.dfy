/** The in-process counters. The mutex makes each method one atomic update. */
module Metrics {
  import opened RelaySystem

  class Metrics {
    var eventsFetched: nat
    var eventsProcessed: nat
    var eventsFailed: nat
    var eventsDead: nat
    var kafkaPublished: nat
    var kafkaFailed: nat
    var errors: map<string, nat>

    constructor ()
      ensures Value() == Counters(0, 0, 0, 0, 0) && kafkaFailed == 0 && errors == map[]
    {
      eventsFetched, eventsProcessed, eventsFailed, eventsDead := 0, 0, 0, 0;
      kafkaPublished, kafkaFailed := 0, 0;
      errors := map[];
    }

    function Value(): Counters
      reads this
    {
      Counters(eventsFetched, eventsProcessed, eventsFailed, eventsDead, kafkaPublished)
    }

    function ErrorCount(kind: string): nat
      reads this
    {
      if kind in errors then errors[kind] else 0
    }

    /** Errors of a kind that are not failed publishes. */
    function OtherErrors(kind: string): int
      reads this
    {
      if kind == "publish" then ErrorCount(kind) - eventsFailed else ErrorCount(kind)
    }

    method RecordFetch(count: nat)
      modifies this
      ensures Value() == old(Value()).(fetched := old(Value()).fetched + count)
      ensures kafkaFailed == old(kafkaFailed) && errors == old(errors)
      ensures forall k: string :: ErrorCount(k) == old(ErrorCount(k))
    {
      eventsFetched := eventsFetched + count;
    }

    method IncrementSuccess()
      modifies this
      ensures Value() == old(Value()).(processed := old(Value()).processed + 1, published := old(Value()).published + 1)
      ensures kafkaFailed == old(kafkaFailed) && errors == old(errors)
      ensures forall k: string :: ErrorCount(k) == old(ErrorCount(k))
    {
      eventsProcessed := eventsProcessed + 1;
      kafkaPublished := kafkaPublished + 1;
    }

    method IncrementErrors(kind: string)
      modifies this
      ensures Value() == old(Value()).(failed := old(Value()).failed + 1)
      ensures kafkaFailed == old(kafkaFailed)
      ensures forall k: string :: ErrorCount(k) == old(ErrorCount(k)) + if k == kind then 1 else 0
    {
      eventsFailed := eventsFailed + 1;
      errors := errors[kind := ErrorCount(kind) + 1];
    }

    method IncrementDead()
      modifies this
      ensures Value() == old(Value()).(dead := old(Value()).dead + 1)
      ensures kafkaFailed == old(kafkaFailed) && errors == old(errors)
      ensures forall k: string :: ErrorCount(k) == old(ErrorCount(k))
    {
      eventsDead := eventsDead + 1;
    }
  }
}
