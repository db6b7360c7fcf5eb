/** Which acknowledgements the stream dismisses (streaming.rs). */
module Dismissals {
  import opened Wrappers
  import opened Records
  import opened AckFrontier
  import opened Subscribe
  import opened OwnershipPeriods

  // The stream dismisses an acknowledgement at or below the value it keeps as acknowledged. That value
  // is a frontier some acknowledgement reached, and it outlives the tracker: a drop lowers the frontier,
  // nothing lowers the value. So what an earlier period settled is dismissed in a later one.

  // ---------- the value the stream keeps ----------

  function HighWater(s: Stream, key: TopicPartition): Option<int> {
    if key in s.acknowledged then Some(s.acknowledged[key]) else None
  }

  function Higher(a: Option<int>, b: Option<int>): Option<int> {
    if a.None? || (b.Some? && a.value < b.value) then b else a
  }

  predicate Mentions(acks: seq<Point>, key: TopicPartition) {
    exists i | 0 <= i < |acks| :: acks[i].0 == key
  }

  lemma MentionsLast(acks: seq<Point>, key: TopicPartition)
    requires acks != []
    ensures Mentions(acks, key) <==> Mentions(acks[..|acks| - 1], key) || acks[|acks| - 1].0 == key
  {
    var init := acks[..|acks| - 1];
    if i :| 0 <= i < |init| && init[i].0 == key { assert acks[i].0 == key; }
    if i :| 0 <= i < |acks| && acks[i].0 == key { assert i < |init| ==> init[i].0 == key; }
  }

  lemma AckOneKeeps(s: Stream, p: Point, key: TopicPartition)
    requires ValidTable(s.table) && AckOne(s, p).ok
    ensures var t := AckOne(s, p).stream;
      && HighWater(t, key) == (if p.0 == key then Higher(HighWater(s, key), Frontier(t.table, key)) else HighWater(s, key))
      && (p.0 != key ==> Frontier(t.table, key) == Frontier(s.table, key))
  {
    hide Mark, RecordAck, ValidTable;
    var r := SessionAck(s.table, p.0, p.1);
    if Frontier(r.table, p.0).Some? { MarkRaises(s.(table := r.table), p.0, Frontier(r.table, p.0).value, key); }
  }

  lemma MarkRaises(s: Stream, marked: TopicPartition, frontier: int, key: TopicPartition)
    ensures Mark(s, marked, frontier).table == s.table
    ensures HighWater(Mark(s, marked, frontier), key) ==
      if marked == key then Higher(HighWater(s, key), Some(frontier)) else HighWater(s, key)
  {
  }

  /** Acknowledgements raise the value to the frontier they leave, if they mention the partition at all. */
  lemma {:induction false} AckAllKeeps(s: Stream, acks: seq<Point>, key: TopicPartition)
    requires ValidTable(s.table) && AckAll(s, acks).ok && forall i | 0 <= i < |acks| :: acks[i].1 <= I64_MAX
    ensures var t := AckAll(s, acks).stream;
      && HighWater(t, key) == (if Mentions(acks, key) then Higher(HighWater(s, key), Frontier(t.table, key)) else HighWater(s, key))
      && (!Mentions(acks, key) ==> Frontier(t.table, key) == Frontier(s.table, key))
  {
    if acks != [] {
      var init, p := acks[..|acks| - 1], acks[|acks| - 1];
      AckAllKeeps(s, init, key);
      AckAllAgrees(s, init, key);
      MentionsLast(acks, key);
      AckOneKeeps(AckAll(s, init).stream, p, key);
      FrontierAdvances(AckAll(s, init).stream, p, key);
    }
  }

  lemma FrontierAdvances(s: Stream, p: Point, key: TopicPartition)
    requires ValidTable(s.table) && AckOne(s, p).ok && p.1 <= I64_MAX
    ensures Higher(Frontier(s.table, key), Frontier(AckOne(s, p).stream.table, key)) == Frontier(AckOne(s, p).stream.table, key)
  {
    if p.0.1 >= 0 && p.1 >= 0 { AckKeepsValid(TrackerOf(s.table, p.0), p.1); }
  }

  // ---------- the frontiers a run has reached ----------

  /** The period of `key` when the last iteration's records and acknowledgements are in, before its commit. */
  ghost function Closing(events: seq<Event>, key: TopicPartition): Period
    requires events != [] && Completed(events)
  {
    var init, e := events[..|events| - 1], events[|events| - 1];
    var s := Run(init).state.stream;
    Acked(Taken(PeriodOf(init, key), e, key), key, TakeIn(s, e).acks)
  }

  /** The last iteration acknowledged a record of `key` and left its settled frontier at `f`. */
  ghost predicate Reaches(events: seq<Event>, key: TopicPartition, f: int) {
    && events != [] && Completed(events)
    && Mentions(TakeIn(Run(events[..|events| - 1]).state.stream, events[|events| - 1]).acks, key)
    && SettledFrontier(Closing(events, key).history) == Some(f)
  }

  lemma FrontierFollows(table: Table, d: Period, key: TopicPartition)
    requires Follows(table, d, key)
    ensures Frontier(table, key) == SettledFrontier(d.history)
  {
  }

  lemma StepKeepsHigh(s: Stream, d: Period, e: Event, key: TopicPartition, polled: set<Point>)
    requires Sound(s, key, polled) && Follows(s.table, d, key) && Step(s, e).state.Running?
    ensures TakeIn(s, e).Proceed?
    ensures HighWater(Step(s, e).state.stream, key) ==
      if Mentions(TakeIn(s, e).acks, key)
      then Higher(HighWater(s, key), SettledFrontier(Acked(Taken(d, e, key), key, TakeIn(s, e).acks).history))
      else HighWater(s, key)
  {
    hide Acked, Taken, Commit, RegisterAll, Mentions, Follows, SettledFrontier;
    TakeInKeeps(s, e, key, polled);
    AcksAreInRange(s, e);
    AckAllKeeps(TakeIn(s, e).stream, TakeIn(s, e).acks, key);
    ReadyFollows(s, d, e, key, polled);
    FrontierFollows(Ready(s, e), Acked(Taken(d, e, key), key, TakeIn(s, e).acks), key);
  }

  lemma LastStepKeeps(events: seq<Event>, key: TopicPartition)
    requires events != [] && Run(events).state.Running?
    ensures var init, e := events[..|events| - 1], events[|events| - 1];
      && Run(init).state.Running? && Completed(events)
      && var s := Run(init).state.stream;
      HighWater(Run(events).state.stream, key) ==
      if Mentions(TakeIn(s, e).acks, key) then Higher(HighWater(s, key), SettledFrontier(Closing(events, key).history))
      else HighWater(s, key)
  {
    hide Acked, Taken, PeriodOf, Mentions, SettledFrontier;
    var init := events[..|events| - 1];
    RunKeeps(init, key);
    TrackerFollowsPeriod(init, key);
    StepKeepsHigh(Run(init).state.stream, PeriodOf(init, key), events[|events| - 1], key, Polled(init));
  }

  ghost predicate IsHighest(events: seq<Event>, key: TopicPartition, value: Option<int>) {
    && (value.Some? ==> exists i | 0 < i <= |events| :: Reaches(events[..i], key, value.value))
    && (forall i, f | 0 < i <= |events| && Reaches(events[..i], key, f) :: value.Some? && f <= value.value)
  }

  lemma HighestSoFar(events: seq<Event>, key: TopicPartition, before: Option<int>, after: Option<int>)
    requires events != [] && IsHighest(events[..|events| - 1], key, before)
    requires forall f | Reaches(events, key, f) :: after == Higher(before, Some(f))
    requires after == before || exists f :: Reaches(events, key, f)
    ensures IsHighest(events, key, after)
  {
    hide Reaches;
    var init := events[..|events| - 1];
    assert events[..|events|] == events;
    assert forall i | 0 < i <= |init| :: init[..i] == events[..i];
    if after.Some? {
      if after != before {
        var f :| Reaches(events, key, f);
        assert Reaches(events[..|events|], key, after.value);
      } else {
        var i :| 0 < i <= |init| && Reaches(init[..i], key, before.value);
        assert Reaches(events[..i], key, after.value);
      }
    }
    forall i, f | 0 < i <= |events| && Reaches(events[..i], key, f) ensures after.Some? && f <= after.value {
      if i < |events| {
        assert Reaches(init[..i], key, f);
        if g :| Reaches(events, key, g) { assert after == Higher(before, Some(g)); }
      } else {
        assert Reaches(events, key, f);
      }
    }
  }

  /**
   Over every run, whatever was owned when, the value the stream keeps for a partition is the
   highest settled frontier that any acknowledgement of it has reached, in any period.
   */
  lemma {:induction false} AcknowledgedIsHighest(events: seq<Event>, key: TopicPartition)
    requires Run(events).state.Running?
    ensures IsHighest(events, key, HighWater(Run(events).state.stream, key))
  {
    if events != [] {
      var init := events[..|events| - 1];
      AcknowledgedIsHighest(init, key);
      LastStepKeeps(events, key);
      var reached := SettledFrontier(Closing(events, key).history);
      assert reached.Some? && HighWater(Run(events).state.stream, key) != HighWater(Run(init).state.stream, key) ==>
        Reaches(events, key, reached.value);
      HighestSoFar(events, key, HighWater(Run(init).state.stream, key), HighWater(Run(events).state.stream, key));
    }
  }

  // ---------- what is dismissed ----------

  /** An earlier period of `key` settled something at or above `offset`. */
  ghost predicate SettledBefore(events: seq<Event>, key: TopicPartition, offset: int) {
    exists i, f | 0 < i <= Began(events, key) && Reaches(events[..i], key, f) :: offset <= f
  }

  /** The tracker knows nothing settled at or above `offset`. */
  ghost predicate Unsettled(d: Period, offset: int) {
    SettledFrontier(d.history).Some? ==> SettledFrontier(d.history).value < offset
  }

  /** An iteration that does not drop `key` moves the period's frontier forward only. */
  lemma ClosingIsForward(events: seq<Event>, key: TopicPartition)
    requires events != [] && Completed(events)
    ensures var before, after := PeriodOf(events[..|events| - 1], key), Closing(events, key);
      SettledFrontier(before.history).Some? ==>
        SettledFrontier(after.history).Some? && SettledFrontier(before.history).value <= SettledFrontier(after.history).value
  {
    hide Acked, Taken, PeriodOf, SettledFrontier, Refines;
    var init, e := events[..|events| - 1], events[|events| - 1];
    var s, d := Run(init).state.stream, PeriodOf(init, key);
    RunKeeps(init, key);
    TrackerFollowsPeriod(init, key);
    ReadyFollows(s, d, e, key, Polled(init));
    BeforeCommit(s, e, key, Polled(init));
    FrontierFollows(s.table, d, key);
    FrontierFollows(Ready(s, e), Closing(events, key), key);
  }

  lemma ClosesOn(events: seq<Event>, key: TopicPartition)
    requires events != [] && Completed(events) && Began(events, key) < |events|
    ensures PeriodOf(events, key) == Closing(events, key) && Began(events, key) == Began(events[..|events| - 1], key)
  {
  }

  /** What an acknowledgement of the period reached, the period has settled. */
  lemma {:induction false} ReachedInPeriod(events: seq<Event>, i: nat, key: TopicPartition, f: int)
    requires Completed(events) && Began(events, key) < i <= |events| && Reaches(events[..i], key, f)
    ensures !Unsettled(PeriodOf(events, key), f)
    decreases |events|
  {
    hide Closing, SettledFrontier, PeriodOf, Completed;
    ClosesOn(events, key);
    if i == |events| {
      assert events[..i] == events;
    } else {
      var init := events[..|events| - 1];
      assert init[..i] == events[..i];
      StartedRunning(events);
      ReachedInPeriod(init, i, key, f);
      ClosingIsForward(events, key);
    }
  }

  lemma StartedRunning(events: seq<Event>)
    requires events != [] && Completed(events)
    ensures Run(events[..|events| - 1]).state.Running? && Completed(events[..|events| - 1])
  {
    RunningIsCompleted(events[..|events| - 1]);
  }

  lemma HighWaterIsEarlier(events: seq<Event>, key: TopicPartition, offset: int)
    requires Run(events).state.Running? && Unsettled(PeriodOf(events, key), offset)
    ensures var high := HighWater(Run(events).state.stream, key);
      high.Some? && offset <= high.value <==> SettledBefore(events, key, offset)
  {
    hide Reaches, PeriodOf;
    var high := HighWater(Run(events).state.stream, key);
    AcknowledgedIsHighest(events, key);
    RunningIsCompleted(events);
    if high.Some? && offset <= high.value {
      var i :| 0 < i <= |events| && Reaches(events[..i], key, high.value);
      if i > Began(events, key) { ReachedInPeriod(events, i, key, high.value); }
    }
    if SettledBefore(events, key, offset) {
      var i, f :| 0 < i <= Began(events, key) && Reaches(events[..i], key, f) && offset <= f;
    }
  }

  /**
   In every run, an acknowledgement of an offset that the period has not settled is dismissed
   exactly when an earlier period settled it or something above it. Then nothing happens.
   */
  lemma DismissedExactly(events: seq<Event>)
    requires events != [] && Run(events[..|events| - 1]).state.Running? && events[|events| - 1].ClientAck?
    requires Unsettled(PeriodOf(events[..|events| - 1], events[|events| - 1].key), events[|events| - 1].offset)
    ensures var init, e := events[..|events| - 1], events[|events| - 1];
      && (ValidateAck(Run(init).state.stream, e.key, e.offset) == Duplicate <==> SettledBefore(init, e.key, e.offset))
      && (SettledBefore(init, e.key, e.offset) ==> Run(events) == StepResult(Run(init).state, map[]))
  {
    var init, e := events[..|events| - 1], events[|events| - 1];
    HighWaterIsEarlier(init, e.key, e.offset);
    assert AckAll(Run(init).state.stream, []) == Subscribe.Acknowledged(true, Run(init).state.stream);
  }

  // ---------- what is not dismissed is recorded ----------

  /** Records the run delivered to the client. */
  function Emitted(events: seq<Event>): set<Point> {
    if events == [] then {}
    else Emitted(events[..|events| - 1]) + EmittedBy(events[|events| - 1])
  }

  function EmittedBy(e: Event): set<Point> {
    match e
    case Poll(ds, _, _) => set i | 0 <= i < |ds| && ds[i].Deliver? :: PointOf(ds[i])
    case ClientAck(_, _, _, _) => {}
  }

  /** The client may acknowledge `p`: the stream holds it, or has put it behind the value it keeps. */
  ghost predicate Remembered(s: Stream, p: Point) {
    p.1 in DeliveredOf(s.delivered, p.0) || (p.0 in s.acknowledged && p.1 <= s.acknowledged[p.0])
  }

  lemma {:induction false} NoteRemembers(delivered: Offsets, decisions: seq<Decision>, p: Point)
    requires p.1 in DeliveredOf(delivered, p.0)
          || exists i | 0 <= i < |decisions| :: decisions[i].Deliver? && PointOf(decisions[i]) == p
    ensures p.1 in DeliveredOf(Note(delivered, decisions), p.0)
  {
    if decisions != [] {
      var init := decisions[..|decisions| - 1];
      if p.1 in DeliveredOf(delivered, p.0) {
        NoteRemembers(delivered, init, p);
      } else {
        var i :| 0 <= i < |decisions| && decisions[i].Deliver? && PointOf(decisions[i]) == p;
        if i < |init| {
          assert init[i].Deliver? && PointOf(init[i]) == p;
          NoteRemembers(delivered, init, p);
        }
      }
    }
  }

  lemma AckOneRemembers(s: Stream, q: Point, p: Point)
    requires Remembered(s, p)
    ensures Remembered(AckOne(s, q).stream, p)
  {
    hide Mark, RecordAck;
    var r := SessionAck(s.table, q.0, q.1);
    if Frontier(r.table, q.0).Some? { MarkRemembers(s.(table := r.table), q.0, Frontier(r.table, q.0).value, p); }
  }

  lemma MarkRemembers(s: Stream, key: TopicPartition, frontier: int, p: Point)
    requires Remembered(s, p)
    ensures Remembered(Mark(s, key, frontier), p)
  {
  }

  lemma {:induction false} AckAllRemembers(s: Stream, acks: seq<Point>, p: Point)
    requires Remembered(s, p)
    ensures Remembered(AckAll(s, acks).stream, p)
  {
    hide AckOne, Remembered;
    if acks != [] {
      AckAllRemembers(s, acks[..|acks| - 1], p);
      if AckAll(s, acks[..|acks| - 1]).ok { AckOneRemembers(AckAll(s, acks[..|acks| - 1]).stream, acks[|acks| - 1], p); }
    }
  }

  lemma StepRemembersEmitted(s: Stream, e: Event, p: Point)
    requires Step(s, e).state.Running? && (Remembered(s, p) || p in EmittedBy(e))
    ensures Remembered(Step(s, e).state.stream, p)
  {
    var Proceed(s1, acks) := TakeIn(s, e);
    if e.Poll? && (p in EmittedBy(e) || p.1 in DeliveredOf(s.delivered, p.0)) { NoteRemembers(s.delivered, e.decisions, p); }
    AckAllRemembers(s1, acks, p);
  }

  /** A record delivered in the run is never refused as one that was not. */
  lemma {:induction false} EmittedIsRemembered(events: seq<Event>, p: Point)
    requires Run(events).state.Running? && p in Emitted(events)
    ensures Remembered(Run(events).state.stream, p)
  {
    hide Step, Remembered;
    var init := events[..|events| - 1];
    if p in Emitted(init) { EmittedIsRemembered(init, p); }
    StepRemembersEmitted(Run(init).state.stream, events[|events| - 1], p);
  }

  lemma AcknowledgedOffset(h: History, offset: int)
    requires h.baseline.Some? && offset > SettledFrontier(h).value && offset in h.admitted
    ensures Acknowledge(h, offset) == HistoryOutcome(true, h.(acked := h.acked + {offset}))
  {
  }

  /** An offset polled in an ordered period and not settled by it is outstanding. */
  lemma PolledIsOutstanding(events: seq<Event>, key: TopicPartition, offset: int)
    requires key.1 >= 0 && Run(events).state.Running? && PolledInOrder(events, key)
    requires offset >= 0 && offset in PeriodOf(events, key).polled && Unsettled(PeriodOf(events, key), offset)
    ensures PeriodOf(events, key).history.baseline.Some? && offset in PeriodOf(events, key).history.admitted
  {
    var d := PeriodOf(events, key);
    RunningIsCompleted(events);
    PeriodIsPlaced(events, key);
    TrackerFollowsPeriod(events, key);
    if d.history.baseline.Some? && d.late { LateSeedIsSettled(d); }
  }

  /**
   The client acknowledges a record delivered to it and polled in an ordered period. The stream
   never refuses that. If the period has not settled the record, the acknowledgement is recorded
   exactly when no earlier period settled it or something above it; otherwise nothing happens.
   */
  lemma DeliveredAckIsRecordedExactly(events: seq<Event>)
    requires events != [] && Run(events[..|events| - 1]).state.Running? && events[|events| - 1].ClientAck?
    requires var init, e := events[..|events| - 1], events[|events| - 1];
      && e.key.1 >= 0 && e.offset >= 0 && PolledInOrder(init, e.key)
      && (e.key, e.offset as int) in Emitted(init) && e.offset in PeriodOf(init, e.key).polled
    ensures Run(events).state !in {Stopped(AckRejected), Stopped(AckUntracked)}
    ensures var init, e := events[..|events| - 1], events[|events| - 1];
      Unsettled(PeriodOf(init, e.key), e.offset) ==>
        if SettledBefore(init, e.key, e.offset) then Run(events) == StepResult(Run(init).state, map[])
        else Completed(events) && e.offset in Closing(events, e.key).history.acked
  {
    hide SettledBefore, PolledInOrder, Emitted, AckOne, Unsettled, PeriodOf;
    var init, e := events[..|events| - 1], events[|events| - 1];
    EmittedIsRemembered(init, (e.key, e.offset as int));
    AckOfPolledIsTracked(events);
    if Unsettled(PeriodOf(init, e.key), e.offset) {
      DismissedExactly(events);
      if !SettledBefore(init, e.key, e.offset) { AcceptedIsRecorded(events); }
    }
  }

  lemma AcceptedIsRecorded(events: seq<Event>)
    requires events != [] && Run(events[..|events| - 1]).state.Running? && events[|events| - 1].ClientAck?
    requires var init, e := events[..|events| - 1], events[|events| - 1];
      && e.key.1 >= 0 && e.offset >= 0 && PolledInOrder(init, e.key)
      && e.offset in PeriodOf(init, e.key).polled && Unsettled(PeriodOf(init, e.key), e.offset)
      && ValidateAck(Run(init).state.stream, e.key, e.offset) == Advance
    ensures Completed(events) && events[|events| - 1].offset in Closing(events, events[|events| - 1].key).history.acked
  {
    hide PolledInOrder, PeriodOf, AckOne, Follows;
    var init, e := events[..|events| - 1], events[|events| - 1];
    var s, d, p := Run(init).state.stream, PeriodOf(init, e.key), (e.key, e.offset as int);
    AckOneOk(s, p);
    PolledIsOutstanding(init, e.key, e.offset);
    TrackerFollowsPeriod(init, e.key);
    AckRefusedExactly(s.table, d, e.key, e.offset);
    OneAck(s, p, e);
    AcknowledgedOffset(d.history, e.offset);
    var acks := [p];
    assert TakeIn(s, e) == Proceed(s, acks) && acks[..0] == [];
    assert Acked(d, e.key, acks) == AckedOne(d, e.key, p);
  }

  // ---------- how exact the frontier is ----------

  /** What was filtered out, or named by a client acknowledgement, since the period began. */
  ghost function AnsweredSince(events: seq<Event>, key: TopicPartition): set<Point> {
    Answered(events[Began(events, key)..])
  }

  lemma AnsweredSinceLast(events: seq<Event>, key: TopicPartition)
    requires events != [] && Began(events, key) < |events|
    ensures AnsweredSince(events, key) == AnsweredSince(events[..|events| - 1], key) + AnsweredBy(events[|events| - 1])
  {
    var n, init := Began(events, key), events[..|events| - 1];
    assert events[n..][..|events[n..]| - 1] == init[n..];
  }

  /** All the period has recorded as acknowledged was answered since it began. */
  lemma {:induction false} AckedIsAnsweredSince(events: seq<Event>, key: TopicPartition)
    requires Completed(events)
    ensures Recorded(PeriodOf(events, key), key, Polled(events), AnsweredSince(events, key))
  {
    hide Recorded, AnsweredSince;
    if events == [] || Began(events, key) == |events| {
      NewIsRecorded(events, key);
    } else {
      var init, e := events[..|events| - 1], events[|events| - 1];
      StartedRunning(events);
      AckedIsAnsweredSince(init, key);
      RunKeeps(init, key);
      NextIsRecorded(Run(init).state.stream, PeriodOf(init, key), e, key, Polled(init), AnsweredSince(init, key));
      AnsweredSinceLast(events, key);
      ClosesOn(events, key);
    }
  }

  lemma NewIsRecorded(events: seq<Event>, key: TopicPartition)
    requires Completed(events) && (events == [] || Began(events, key) == |events|)
    ensures Recorded(PeriodOf(events, key), key, Polled(events), AnsweredSince(events, key))
  {
    assert PeriodOf(events, key) == NewPeriod;
  }

  lemma {:induction false} AckedGrows(d: Period, key: TopicPartition, acks: seq<Point>)
    ensures d.history.acked <= Acked(d, key, acks).history.acked
  {
    if acks != [] { AckedGrows(d, key, acks[..|acks| - 1]); }
  }

  lemma {:induction false} RegisterAckedStays(d: Period, key: TopicPartition, decisions: seq<Decision>)
    ensures Register(d, key, decisions).history.acked == d.history.acked
  {
    if decisions != [] { RegisterAckedStays(d, key, decisions[..|decisions| - 1]); }
  }

  /** An acknowledgement the tracker took is recorded, unless the frontier has passed it. */
  lemma AckedOneHears(table: Table, d: Period, key: TopicPartition, offset: int)
    requires Follows(table, d, key) && Tracked(key, offset) && offset <= I64_MAX && SessionAck(table, key, offset).ok
    ensures var after := AckedOne(d, key, (key, offset)); offset in after.history.acked || !Unsettled(after, offset)
  {
    AckRefusedExactly(table, d, key, offset);
    if d.history.baseline.None? {
      FirstAcknowledgement(d.history, offset);
    } else if Unsettled(d, offset) {
      AcknowledgedOffset(d.history, offset);
    }
  }

  lemma {:induction false} AckedHears(s: Stream, d: Period, key: TopicPartition, acks: seq<Point>, i: nat)
    requires ValidTable(s.table) && Follows(s.table, d, key) && AckAll(s, acks).ok
    requires forall k | 0 <= k < |acks| :: acks[k].1 <= I64_MAX
    requires i < |acks| && acks[i].0 == key && Tracked(key, acks[i].1)
    ensures var after := Acked(d, key, acks); acks[i].1 in after.history.acked || !Unsettled(after, acks[i].1)
  {
    hide Follows, ValidTable, Unsettled, SessionAck;
    var init, p := acks[..|acks| - 1], acks[|acks| - 1];
    var before := AckAll(s, init).stream;
    AcksFollow(s, d, key, init);
    AckAllAgrees(s, init, key);
    if i == |init| {
      assert p == (key, p.1);
      AckOneOk(before, p);
      AckedOneHears(before.table, Acked(d, key, init), key, p.1);
    } else {
      AckedHears(s, d, key, init, i);
      AckedOneStays(before, Acked(d, key, init), key, p, acks[i].1);
    }
  }

  lemma AckOneOk(s: Stream, p: Point)
    ensures AckOne(s, p).ok == SessionAck(s.table, p.0, p.1).ok
  {
  }

  lemma AckedOneStays(s: Stream, d: Period, key: TopicPartition, p: Point, offset: int)
    requires ValidTable(s.table) && Follows(s.table, d, key) && AckOne(s, p).ok && p.1 <= I64_MAX
    requires offset in d.history.acked || !Unsettled(d, offset)
    ensures var after := AckedOne(d, key, p); offset in after.history.acked || !Unsettled(after, offset)
  {
    hide Acknowledge, SettledFrontier, Refines;
    AckOneFollows(s, d, key, p);
    FrontierAdvances(s, p, key);
    FrontierFollows(s.table, d, key);
    FrontierFollows(AckOne(s, p).stream.table, AckedOne(d, key, p), key);
    AcknowledgeGrows(d.history, p.1);
  }

  lemma AcknowledgeGrows(h: History, offset: int)
    ensures h.acked <= Acknowledge(h, offset).history.acked
  {
  }

  /** The acknowledgements an iteration takes in include every answer of its event that is not dismissed. */
  lemma {:induction false} FilteredAnswers(decisions: seq<Decision>, p: Point) returns (k: nat)
    requires p in SeenFiltered(decisions)
    ensures k < |Filtered(decisions)| && Filtered(decisions)[k] == p
  {
    var n := |decisions| - 1;
    var init := decisions[..n];
    var i :| 0 <= i < |decisions| && decisions[i].Filter? && PointOf(decisions[i]) == p;
    if i == n {
      k := |Filtered(init)|;
    } else {
      assert init[i].Filter? && PointOf(init[i]) == p;
      k := FilteredAnswers(init, p);
    }
  }

  lemma AnswerIsHeard(events: seq<Event>, key: TopicPartition, offset: int)
    requires events != [] && Completed(events) && Tracked(key, offset)
    requires var init, e := events[..|events| - 1], events[|events| - 1];
      && (key, offset) in AnsweredBy(e)
      && (e.ClientAck? ==> ValidateAck(Run(init).state.stream, key, e.offset) == Advance)
    ensures offset in Closing(events, key).history.acked || !Unsettled(Closing(events, key), offset)
  {
    hide Acked, Taken, PeriodOf, Follows, Unsettled, AckAll;
    var init, e := events[..|events| - 1], events[|events| - 1];
    var s, d := Run(init).state.stream, PeriodOf(init, key);
    RunKeeps(init, key);
    TrackerFollowsPeriod(init, key);
    TakeInKeeps(s, e, key, Polled(init));
    AcksAreInRange(s, e);
    TakenFollows(s, d, e, key);
    var k := 0;
    if e.Poll? { k := FilteredAnswers(e.decisions, (key, offset)); }
    AckedHears(TakeIn(s, e).stream, Taken(d, e, key), key, TakeIn(s, e).acks, k);
  }

  lemma TakenFollows(s: Stream, d: Period, e: Event, key: TopicPartition)
    requires ValidTable(s.table) && Follows(s.table, d, key) && TakeIn(s, e).Proceed?
    ensures Follows(TakeIn(s, e).stream.table, Taken(d, e, key), key)
  {
    if e.Poll? { RegisterFollows(s.table, d, key, e.decisions); }
  }

  lemma SettledBeforeStays(events: seq<Event>, key: TopicPartition, offset: int)
    requires events != [] && Began(events, key) == Began(events[..|events| - 1], key)
    ensures SettledBefore(events, key, offset) <==> SettledBefore(events[..|events| - 1], key, offset)
  {
    hide Reaches, Began;
    var init := events[..|events| - 1];
    assert forall i | 0 < i <= |init| :: init[..i] == events[..i];
  }

  /**
   An offset answered since the period began is recorded as acknowledged, unless the period has
   settled it or an earlier period settled it or something above it.
   */
  lemma {:induction false} AnsweredIsAcked(events: seq<Event>, key: TopicPartition, offset: int)
    requires Completed(events) && Tracked(key, offset) && (key, offset) in AnsweredSince(events, key)
    requires Unsettled(PeriodOf(events, key), offset) && !SettledBefore(events, key, offset)
    ensures offset in PeriodOf(events, key).history.acked
    decreases |events|
  {
    hide Closing, SettledFrontier, PeriodOf, SettledBefore, AnsweredSince, Completed, ValidateAck;
    SinceIsOpen(events, key, offset);
    var init, e := events[..|events| - 1], events[|events| - 1];
    ClosesOn(events, key);
    AnsweredSinceLast(events, key);
    StartedRunning(events);
    ClosingIsForward(events, key);
    SettledBeforeStays(events, key, offset);
    ClosingGrows(events, key);
    if (key, offset) in AnsweredSince(init, key) {
      AnsweredIsAcked(init, key, offset);
    } else {
      if e.ClientAck? {
        DismissedExactly(events);
        CompletedIsNotRefused(events);
      }
      AnswerIsHeard(events, key, offset);
    }
  }

  lemma SinceIsOpen(events: seq<Event>, key: TopicPartition, offset: int)
    requires (key, offset) in AnsweredSince(events, key)
    ensures events != [] && Began(events, key) < |events|
  {
    assert events[|events|..] == [];
  }

  lemma CompletedIsNotRefused(events: seq<Event>)
    requires events != [] && Completed(events) && events[|events| - 1].ClientAck?
    ensures var e := events[|events| - 1];
      ValidateAck(Run(events[..|events| - 1]).state.stream, e.key, e.offset) != NotDelivered
  {
  }

  lemma ClosingGrows(events: seq<Event>, key: TopicPartition)
    requires events != [] && Completed(events)
    ensures PeriodOf(events[..|events| - 1], key).history.acked <= Closing(events, key).history.acked
  {
    var init, e := events[..|events| - 1], events[|events| - 1];
    var d := PeriodOf(init, key);
    if e.Poll? { RegisterAckedStays(d, key, e.decisions); }
    AckedGrows(Taken(d, e, key), key, TakeIn(Run(init).state.stream, e).acks);
  }

  // ---------- exactness ----------

  /**
   `f` is the largest offset polled in the period with everything polled at or below it answered,
   or lies just below the seed when there is none.
   */
  ghost predicate IsExact(d: Period, key: TopicPartition, answered: set<Point>, f: int)
    requires d.history.baseline.Some?
  {
    && (f in d.polled || f == Seed(d) - 1)
    && (forall o | o in d.polled && 0 <= o <= f :: (key, o) in answered)
    && (forall o | o in d.polled && o > f :: exists b | b in d.polled :: 0 <= b <= o && (key, b) !in answered)
  }

  /** The record the frontier waits for: the least polled offset above it. */
  ghost function Awaited(d: Period): Option<int>
    requires d.history.baseline.Some?
  {
    var above := set o | o in d.polled && o > SettledFrontier(d.history).value;
    if above == {} then None else Some(First(above))
  }

  lemma NothingAwaited(d: Period)
    requires d.history.baseline.Some? && Awaited(d).None?
    ensures forall a | a in d.polled :: a <= SettledFrontier(d.history).value
  {
    var above := set o | o in d.polled && o > SettledFrontier(d.history).value;
    assert forall a | a in d.polled :: a in above <==> a > SettledFrontier(d.history).value;
  }

  lemma AwaitedIsUnacked(d: Period)
    requires d.history.baseline.Some? && Seeded(d) && Placed(d) && !d.late && Awaited(d).Some?
    ensures var o := Awaited(d).value; o >= 0 && Unsettled(d, o) && o !in d.history.acked
    ensures forall b | b in d.polled && b < Awaited(d).value :: b <= SettledFrontier(d.history).value
  {
    var o, h, f := Awaited(d).value, d.history, SettledFrontier(d.history).value;
    var above := set a | a in d.polled && a > f;
    FrontierIsAboveBaseline(h);
    assert forall b | b in d.polled :: b in above <==> b > f;
    if o in h.acked {
      forall b | b in h.admitted && b <= o ensures b in h.acked { if b < o { SettledIsBelowFrontier(h, b); } }
      assert o in Settled(h);
      SettledIsBelowFrontier(h, o);
    }
  }

  lemma FrontierIsAboveBaseline(h: History)
    requires WellFormed(h) && h.baseline.Some?
    ensures h.baseline.value <= SettledFrontier(h).value
  {
    if Settled(h) != {} { assert Max(Settled(h)) in Settled(h); }
  }

  lemma SettledIsAnswered(d: Period, key: TopicPartition, polled: set<Point>, answered: set<Point>)
    requires d.history.baseline.Some? && Seeded(d) && Placed(d) && !d.late && Recorded(d, key, polled, answered)
    ensures var f := SettledFrontier(d.history).value;
      (f in d.polled || f == Seed(d) - 1) && forall o | o in d.polled && 0 <= o <= f :: (key, o) in answered
  {
    FrontierIsAdmitted(d);
    forall o | o in d.polled && 0 <= o <= SettledFrontier(d.history).value ensures (key, o) in answered {
      SettledIsBelowFrontier(d.history, o);
      assert o in d.history.acked;
    }
  }

  /** The frontier is exact unless the record it waits for has been answered. */
  lemma ExactUnlessAwaitedIsAnswered(d: Period, key: TopicPartition, polled: set<Point>, answered: set<Point>)
    requires d.history.baseline.Some? && Seeded(d) && Placed(d) && !d.late && Recorded(d, key, polled, answered)
    ensures IsExact(d, key, answered, SettledFrontier(d.history).value) <==>
      !(Awaited(d).Some? && (key, Awaited(d).value) in answered)
  {
    hide Placed, Recorded, Seeded, Settled;
    var f := SettledFrontier(d.history).value;
    SettledIsAnswered(d, key, polled, answered);
    if Awaited(d).Some? {
      var o := Awaited(d).value;
      AwaitedIsUnacked(d);
      assert o in d.polled && o > f;
      if (key, o) !in answered {
        forall a | a in d.polled && a > f ensures exists b | b in d.polled :: 0 <= b <= a && (key, b) !in answered {
          assert o in d.polled && 0 <= o <= a && (key, o) !in answered;
        }
      } else {
        assert forall b | b in d.polled && 0 <= b <= o :: (key, b) in answered;
      }
    } else {
      assert forall a | a in d.polled :: !(a > f) by { NothingAwaited(d); }
    }
  }

  /**
   In every ordered period that no late acknowledgement began, whatever was owned when, the
   settled frontier is the largest polled offset with everything polled at or below it filtered
   out or acknowledged since the period began, if and only if no acknowledgement of the record
   it waits for was dismissed because an earlier period settled that record or one above it.
   */
  lemma FrontierIsExactUnlessDismissed(events: seq<Event>, key: TopicPartition)
    requires key.1 >= 0 && Completed(events) && PolledInOrder(events, key)
    requires PeriodOf(events, key).history.baseline.Some? && !PeriodOf(events, key).late
    ensures var d, answered := PeriodOf(events, key), AnsweredSince(events, key);
      IsExact(d, key, answered, SettledFrontier(d.history).value) <==>
      !(Awaited(d).Some? && (key, Awaited(d).value) in answered && SettledBefore(events, key, Awaited(d).value))
  {
    hide PeriodOf, AnsweredSince, SettledBefore, Completed, PolledInOrder, Placed, Recorded, SettledFrontier, IsExact, Awaited;
    var d, answered := PeriodOf(events, key), AnsweredSince(events, key);
    PeriodIsPlaced(events, key);
    CompletedIsSeeded(events, key);
    AckedIsAnsweredSince(events, key);
    ExactUnlessAwaitedIsAnswered(d, key, Polled(events), answered);
    if Awaited(d).Some? {
      AwaitedIsUnacked(d);
      if (key, Awaited(d).value) in answered && !SettledBefore(events, key, Awaited(d).value) {
        AnsweredIsAcked(events, key, Awaited(d).value);
      }
    }
  }

  lemma CompletedIsSeeded(events: seq<Event>, key: TopicPartition)
    requires key.1 >= 0 && Completed(events)
    ensures Seeded(PeriodOf(events, key))
  {
    if events != [] && Began(events, key) < |events| {
      StartedRunning(events);
      PeriodIsSeeded(events[..|events| - 1], key);
      NextIsSeeded(Run(events[..|events| - 1]).state.stream, PeriodOf(events[..|events| - 1], key), events[|events| - 1], key);
      ClosesOn(events, key);
    }
  }

  /** Until a tracker of the partition is dropped, no earlier period has settled anything above its frontier. */
  lemma NothingSettledBefore(events: seq<Event>, key: TopicPartition, offset: int)
    requires Completed(events) && NeverForgotten(events, key)
    requires PeriodOf(events, key).history.baseline.Some? && Unsettled(PeriodOf(events, key), offset)
    ensures !SettledBefore(events, key, offset)
  {
    hide Closing, PeriodOf, SettledBefore, NeverForgotten;
    if Began(events, key) < |events| {
      var init := events[..|events| - 1];
      StartedRunning(events);
      ClosesOn(events, key);
      ClosingIsForward(events, key);
      SettledBeforeStays(events, key, offset);
      PrefixIsNeverForgotten(events, key);
      RunKeeps(init, key);
      TrackerFollowsPeriod(init, key);
      FrontierFollows(Run(init).state.stream.table, PeriodOf(init, key), key);
      HighWaterIsEarlier(init, key, offset);
    } else {
      NewHasNoTracker(events, key);
    }
  }

  lemma NewHasNoTracker(events: seq<Event>, key: TopicPartition)
    requires Began(events, key) == |events|
    ensures PeriodOf(events, key).history.baseline.None?
  {
  }

  /** So until then the frontier is exact, and there are no late acknowledgements. */
  lemma FirstFrontierIsExact(events: seq<Event>, key: TopicPartition)
    requires key.1 >= 0 && Completed(events) && PolledInOrder(events, key) && NeverForgotten(events, key)
    requires PeriodOf(events, key).history.baseline.Some?
    ensures var d := PeriodOf(events, key);
      IsExact(d, key, AnsweredSince(events, key), SettledFrontier(d.history).value)
  {
    hide PeriodOf, AnsweredSince, SettledBefore, Completed, PolledInOrder, SettledFrontier, IsExact, Awaited, NeverForgotten;
    var d := PeriodOf(events, key);
    FirstPeriodHoldsAll(events, key, (key, 0));
    FrontierIsExactUnlessDismissed(events, key);
    if Awaited(d).Some? {
      PeriodIsPlaced(events, key);
      CompletedIsSeeded(events, key);
      AwaitedIsUnacked(d);
      NothingSettledBefore(events, key, Awaited(d).value);
    }
  }

  /** The same of what is sent: a commit asks for the first record of the period not answered yet, or the end. */
  lemma CommitIsExactUnlessDismissed(events: seq<Event>, key: TopicPartition)
    requires PolledInOrder(events, key) && key in Run(events).sent && !PeriodOf(events, key).late
    ensures var d, answered := PeriodOf(events, key), AnsweredSince(events, key);
      && d.history.baseline.Some?
      && (IsExact(d, key, answered, Run(events).sent[key] - 1) <==>
          !(Awaited(d).Some? && (key, Awaited(d).value) in answered && SettledBefore(events, key, Awaited(d).value)))
      && (NeverForgotten(events, key) ==> IsExact(d, key, answered, Run(events).sent[key] - 1))
  {
    hide PeriodOf, AnsweredSince, SettledBefore, PolledInOrder, IsExact, Awaited, NeverForgotten, SettledFrontier;
    SentIsExact(events, key);
    SentIsCompleted(events, key);
    FrontierIsExactUnlessDismissed(events, key);
    if NeverForgotten(events, key) { FirstFrontierIsExact(events, key); }
  }
}
