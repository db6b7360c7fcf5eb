/** From raw polls to commit safety (streaming.rs). */
module SubscribedPolls {
  import opened Records
  import opened Subscribe
  import opened OwnershipPeriods
  import opened Dismissals
  import BatchFilter

  // The filter stage keeps the records of a poll and their order, so the order the subscription relies
  // on is the order of the polls.

  /** What an iteration is given before anything is filtered. */
  datatype RawEvent =
    | RawPoll(records: seq<Record>, owned: set<TopicPartition>, accepted: bool)
    | RawAck(key: TopicPartition, offset: I64, owned: set<TopicPartition>, accepted: bool)

  /** `e` is `raw` with its records filtered, as `FilterPolledRecords` filters them. */
  ghost predicate IsFiltered(engine: BatchFilter.Engine, verdict: (string, BatchFilter.Row) -> bool, raw: RawEvent, e: Event) {
    match raw
    case RawPoll(records, owned, accepted) =>
      && e.Poll? && e.owned == owned && e.accepted == accepted
      && |e.decisions| == |records| && BatchFilter.AllDecided(engine, verdict, records, e.decisions)
    case RawAck(key, offset, owned, accepted) => e == ClientAck(key, offset, owned, accepted)
  }

  ghost predicate AreFiltered(engine: BatchFilter.Engine, verdict: (string, BatchFilter.Row) -> bool,
                              raws: seq<RawEvent>, events: seq<Event>)
  {
    |raws| == |events| && forall i | 0 <= i < |events| :: IsFiltered(engine, verdict, raws[i], events[i])
  }

  /** Filtering keeps every record in its place. */
  lemma FilteringKeepsRecords(engine: BatchFilter.Engine, verdict: (string, BatchFilter.Row) -> bool,
                              records: seq<Record>, decisions: seq<Decision>)
    requires |decisions| == |records| && BatchFilter.AllDecided(engine, verdict, records, decisions)
    ensures RecordsOf(decisions) == records
  {
    forall i | 0 <= i < |records| ensures decisions[i].record == records[i] {
      BatchFilter.DecidedKeepsRecord(engine, verdict, records, decisions, i);
    }
  }

  /** Within its period, `key` is polled in increasing offset order. */
  ghost predicate RawInOrder(raws: seq<RawEvent>, events: seq<Event>, key: TopicPartition)
    requires |raws| == |events|
  {
    events == [] ||
    var n := |events| - 1;
    (Run(events[..n]).state.Running? && Drops(Run(events[..n]).state.stream, events[n], key)) ||
    (RawInOrder(raws[..n], events[..n], key) &&
     (raws[n].RawPoll? ==> RecordsInOrder(PeriodOf(events[..n], key).polled, raws[n].records, key)))
  }

  lemma {:induction false} FilteringKeepsOrder(engine: BatchFilter.Engine, verdict: (string, BatchFilter.Row) -> bool,
                                               raws: seq<RawEvent>, events: seq<Event>, key: TopicPartition)
    requires AreFiltered(engine, verdict, raws, events) && RawInOrder(raws, events, key)
    ensures PolledInOrder(events, key)
  {
    if events != [] {
      var n := |events| - 1;
      var dropped := Run(events[..n]).state.Running? && Drops(Run(events[..n]).state.stream, events[n], key);
      if !dropped {
        forall i | 0 <= i < n ensures IsFiltered(engine, verdict, raws[..n][i], events[..n][i]) {
          assert IsFiltered(engine, verdict, raws[i], events[i]);
        }
        FilteringKeepsOrder(engine, verdict, raws[..n], events[..n], key);
        assert IsFiltered(engine, verdict, raws[n], events[n]);
        if raws[n].RawPoll? { FilteringKeepsRecords(engine, verdict, raws[n].records, events[n].decisions); }
      }
    }
  }

  /** Commit safety from the polls themselves: a polled record below a commit was filtered out or acknowledged. */
  lemma PolledInOrderIsSafe(engine: BatchFilter.Engine, verdict: (string, BatchFilter.Row) -> bool,
                            raws: seq<RawEvent>, events: seq<Event>, key: TopicPartition, p: Point)
    requires AreFiltered(engine, verdict, raws, events) && RawInOrder(raws, events, key)
    requires key in Run(events).sent && !PeriodOf(events, key).late
    requires p.0 == key && p.1 in PeriodOf(events, key).polled && 0 <= p.1 < Run(events).sent[key]
    ensures p in Answered(events)
  {
    FilteringKeepsOrder(engine, verdict, raws, events, key);
    CommitsCoverOnlyAnswered(events, key, p);
  }

  /** And until a tracker is dropped a commit goes as far as those answers allow. */
  lemma PolledInOrderIsExact(engine: BatchFilter.Engine, verdict: (string, BatchFilter.Row) -> bool,
                             raws: seq<RawEvent>, events: seq<Event>, key: TopicPartition)
    requires AreFiltered(engine, verdict, raws, events) && RawInOrder(raws, events, key)
    requires key in Run(events).sent && NeverForgotten(events, key)
    ensures PeriodOf(events, key).history.baseline.Some?
    ensures IsExact(PeriodOf(events, key), key, AnsweredSince(events, key), Run(events).sent[key] - 1)
  {
    hide IsExact, PeriodOf, AnsweredSince, NeverForgotten;
    FilteringKeepsOrder(engine, verdict, raws, events, key);
    SentIsCompleted(events, key);
    SentIsExact(events, key);
    FirstPeriodHoldsAll(events, key, (key, 0));
    CommitIsExactUnlessDismissed(events, key);
  }
}
