/** Commit safety of subscriptions over runs with any ownership. */
module OwnershipPeriods {
  import opened Wrappers
  import opened Records
  import opened AckFrontier
  import opened Subscribe

  // A commit drops the trackers of partitions that are not owned (consume.rs), while the stream's own
  // maps keep what they know (streaming.rs). The period of a partition is what has happened since a
  // commit last found it not owned. `PeriodOf` follows it along a run: the offsets polled, the offsets
  // admitted and acknowledged, and whether the tracker was made by a late acknowledgement of a record
  // polled in an earlier period.

  datatype Period = Period(polled: set<int>, late: bool, history: History)

  const NewPeriod: Period := Period({}, false, NoHistory)

  predicate Tracked(key: TopicPartition, offset: int) { key.1 >= 0 && offset >= 0 }

  /** A batch of polled records. */
  ghost function Register(d: Period, key: TopicPartition, decisions: seq<Decision>): Period {
    if decisions == [] then d
    else
      var before := Register(d, key, decisions[..|decisions| - 1]);
      var p := PointOf(decisions[|decisions| - 1]);
      if p.0 != key then before
      else before.(polled := before.polled + {p.1},
                   history := if Tracked(key, p.1) then Admit(before.history, p.1).history else before.history)
  }

  /** One acknowledgement; the first thing a period hears of may be a late one. */
  ghost function AckedOne(d: Period, key: TopicPartition, p: Point): Period {
    if p.0 != key || !Tracked(key, p.1) then d
    else d.(late := d.late || d.history.baseline.None?, history := Acknowledge(d.history, p.1).history)
  }

  ghost function Acked(d: Period, key: TopicPartition, acks: seq<Point>): Period {
    if acks == [] then d
    else AckedOne(Acked(d, key, acks[..|acks| - 1]), key, acks[|acks| - 1])
  }

  ghost function Taken(d: Period, e: Event, key: TopicPartition): Period {
    if e.Poll? then Register(d, key, e.decisions) else d
  }

  ghost function NextPeriod(s: Stream, d: Period, e: Event, key: TopicPartition): Period {
    if !TakeIn(s, e).Proceed? then d
    else if Drops(s, e, key) then NewPeriod
    else Acked(Taken(d, e, key), key, TakeIn(s, e).acks)
  }

  /** The period of `key` at the end of a run. */
  ghost function PeriodOf(events: seq<Event>, key: TopicPartition): Period {
    if events == [] then NewPeriod
    else
      var init := events[..|events| - 1];
      var d := PeriodOf(init, key);
      if Run(init).state.Running? then NextPeriod(Run(init).state.stream, d, events[|events| - 1], key) else d
  }

  // ---------- the tracker is what the period determines ----------

  ghost predicate Follows(table: Table, d: Period, key: TopicPartition) {
    && Refines(TrackerOf(table, key), d.history)
    && (key in table <==> d.history.baseline.Some?)
    && (key in table ==> d.history.baseline.value <= table[key].committed.value)
  }

  lemma NothingFollows(table: Table, key: TopicPartition)
    requires key !in table
    ensures Follows(table, NewPeriod, key)
  {
    assert Settled(NoHistory) == {};
  }

  /** Admitting and acknowledging keep the baseline once there is one. */
  lemma BaselineStays(h: History, offset: int)
    requires h.baseline.Some?
    ensures Admit(h, offset).history.baseline == h.baseline
    ensures Acknowledge(h, offset).history.baseline == h.baseline
  {
  }

  lemma DeliverFollows(table: Table, d: Period, key: TopicPartition, p: Point)
    requires ValidTable(table) && Follows(table, d, key) && p.1 <= I64_MAX && SessionDeliver(table, p.0, p.1).ok
    ensures Follows(SessionDeliver(table, p.0, p.1).table,
                    if p.0 == key && Tracked(key, p.1) then d.(history := Admit(d.history, p.1).history) else d, key)
  {
    if p.0 == key && Tracked(key, p.1) {
      var t := TrackerOf(table, key);
      AdmitRefines(t, d.history, p.1);
      DeliveryKeepsValid(t, p.1);
      if d.history.baseline.Some? { BaselineStays(d.history, p.1); }
    }
  }

  lemma {:induction false} RegisterFollows(table: Table, d: Period, key: TopicPartition, decisions: seq<Decision>)
    requires ValidTable(table) && Follows(table, d, key) && RegisterAll(table, decisions).ok
    ensures Follows(RegisterAll(table, decisions).table, Register(d, key, decisions), key)
  {
    if decisions != [] {
      var init := decisions[..|decisions| - 1];
      RegisterFollows(table, d, key, init);
      RegisterKeepsValid(table, init);
      DeliverFollows(RegisterAll(table, init).table, Register(d, key, init), key, PointOf(decisions[|decisions| - 1]));
    }
  }

  /** An acknowledgement where there is a tracker. */
  lemma TrackedAckFollows(table: Table, d: Period, key: TopicPartition, offset: int)
    requires ValidTable(table) && Follows(table, d, key) && key in table
    requires Tracked(key, offset) && offset <= I64_MAX
    ensures Follows(SessionAck(table, key, offset).table, d.(history := Acknowledge(d.history, offset).history), key)
  {
    TrackedAckRefines(table[key], d.history, offset);
    AckKeepsValid(table[key], offset);
    BaselineStays(d.history, offset);
  }

  /** An acknowledgement where there is none. */
  lemma LateAckFollows(table: Table, d: Period, key: TopicPartition, offset: int)
    requires ValidTable(table) && Follows(table, d, key) && key !in table
    requires Tracked(key, offset) && offset <= I64_MAX
    ensures Follows(SessionAck(table, key, offset).table, d.(history := Acknowledge(d.history, offset).history), key)
  {
    SeededAck(table, key, offset);
    FirstAcknowledgement(d.history, offset);
    assert Settled(History(Some(offset - 1), {offset}, {offset})) == {offset};
  }

  lemma AckOneTable(s: Stream, p: Point)
    ensures AckOne(s, p).stream.table == SessionAck(s.table, p.0, p.1).table
  {
  }

  lemma AckOneFollows(s: Stream, d: Period, key: TopicPartition, p: Point)
    requires ValidTable(s.table) && Follows(s.table, d, key) && p.1 <= I64_MAX
    ensures Follows(AckOne(s, p).stream.table, AckedOne(d, key, p), key)
  {
    AckOneTable(s, p);
    if p.0 != key || !Tracked(key, p.1) {
      AckFollowsElsewhere(s.table, d, key, p);
    } else if key in s.table {
      TrackedAckFollows(s.table, d, key, p.1);
    } else {
      LateAckFollows(s.table, d, key, p.1);
    }
  }

  lemma AckFollowsElsewhere(table: Table, d: Period, key: TopicPartition, p: Point)
    requires Follows(table, d, key) && (p.0 != key || !Tracked(key, p.1))
    ensures Follows(SessionAck(table, p.0, p.1).table, d, key)
  {
  }

  lemma FirstAcknowledgement(h: History, offset: int)
    requires WellFormed(h) && h.baseline.None?
    ensures Acknowledge(h, offset) == HistoryOutcome(true, History(Some(offset - 1), {offset}, {offset}))
  {
    FirstAdmission(h, offset);
    assert h.acked == {} && {} + {offset} == {offset};
  }

  /** Acknowledging an offset of a partition without a tracker makes one that has settled just that offset. */
  lemma SeededAck(table: Table, key: TopicPartition, offset: int)
    requires key !in table && Tracked(key, offset)
    ensures SessionAck(table, key, offset) ==
            TableOutcome(true, table[key := Tracker(Some(offset), {}, {}, Some(offset - 1))])
  {
    var seeded := RecordDelivery(Fresh, offset).tracker;
    assert seeded == Tracker(Some(offset - 1), {offset}, {}, Some(offset - 1));
    var t := seeded.(pending := {offset});
    KeptIsUnique({offset}, {offset}, {});
    assert {} + {offset} == {offset};
    assert Drained(t).frontier == Some(offset);
  }

  lemma {:induction false} AcksFollow(s: Stream, d: Period, key: TopicPartition, acks: seq<Point>)
    requires ValidTable(s.table) && Follows(s.table, d, key) && AckAll(s, acks).ok
    requires forall i | 0 <= i < |acks| :: acks[i].1 <= I64_MAX
    ensures Follows(AckAll(s, acks).stream.table, Acked(d, key, acks), key)
  {
    if acks != [] {
      var init := acks[..|acks| - 1];
      AcksFollow(s, d, key, init);
      AckAllAgrees(s, init, key);
      AckOneFollows(AckAll(s, init).stream, Acked(d, key, init), key, acks[|acks| - 1]);
    }
  }

  /** The table an iteration is about to commit follows the period with its polls and acknowledgements in. */
  lemma ReadyFollows(s: Stream, d: Period, e: Event, key: TopicPartition, polled: set<Point>)
    requires Sound(s, key, polled) && Follows(s.table, d, key) && TakeIn(s, e).Proceed?
    requires AckAll(TakeIn(s, e).stream, TakeIn(s, e).acks).ok
    ensures Follows(Ready(s, e), Acked(Taken(d, e, key), key, TakeIn(s, e).acks), key)
  {
    var Proceed(s1, acks) := TakeIn(s, e);
    TakeInKeeps(s, e, key, polled);
    AcksAreInRange(s, e);
    if e.Poll? { RegisterFollows(s.table, d, key, e.decisions); }
    AcksFollow(s1, Taken(d, e, key), key, acks);
  }

  lemma CommitFollows(table: Table, d: Period, owned: set<TopicPartition>, accepted: bool, key: TopicPartition)
    requires ValidTable(table) && Follows(table, d, key)
    ensures key in owned ==> Follows(Commit(table, owned, accepted).table, d, key)
    ensures key !in owned ==> Follows(Commit(table, owned, accepted).table, NewPeriod, key)
  {
    CommitKeeps(table, owned, accepted, key);
    var table' := Commit(table, owned, accepted).table;
    if key in owned {
      if key in table { assert SameProgress(table[key], table'[key]); }
    } else {
      NothingFollows(table', key);
    }
  }

  lemma StepFollows(s: Stream, d: Period, e: Event, key: TopicPartition, polled: set<Point>)
    requires Sound(s, key, polled) && Follows(s.table, d, key) && Step(s, e).state.Running?
    ensures Follows(Step(s, e).state.stream.table, NextPeriod(s, d, e, key), key)
  {
    ReadyFollows(s, d, e, key, polled);
    BeforeCommit(s, e, key, polled);
    CommitFollows(Ready(s, e), Acked(Taken(d, e, key), key, TakeIn(s, e).acks), e.owned, e.accepted, key);
  }

  /** In every run, whatever was owned when, each partition's tracker is exactly what its period determines. */
  lemma {:induction false} TrackerFollowsPeriod(events: seq<Event>, key: TopicPartition)
    requires Run(events).state.Running?
    ensures Follows(Run(events).state.stream.table, PeriodOf(events, key), key)
  {
    if events == [] {
      NothingFollows(map[], key);
    } else {
      var init := events[..|events| - 1];
      TrackerFollowsPeriod(init, key);
      RunKeeps(init, key);
      StepFollows(Run(init).state.stream, PeriodOf(init, key), events[|events| - 1], key, Polled(init));
    }
  }

  /** The offset the period's tracker was made for: its first tracked poll, or the late acknowledgement. */
  ghost function Seed(d: Period): int
    requires d.history.baseline.Some?
  {
    d.history.baseline.value + 1
  }

  /** A commit is one past the period's settled frontier, and past the offset that seeded the tracker. */
  lemma SentIsExact(events: seq<Event>, key: TopicPartition)
    requires key in Run(events).sent
    ensures var d := PeriodOf(events, key);
      && WellFormed(d.history) && d.history.baseline.Some? && key.1 >= 0
      && Run(events).sent[key] == SettledFrontier(d.history).value + 1
      && Seed(d) < Run(events).sent[key]
  {
    var init, e := events[..|events| - 1], events[|events| - 1];
    var s, d := Run(init).state.stream, PeriodOf(init, key);
    RunKeeps(init, key);
    TrackerFollowsPeriod(init, key);
    ReadyFollows(s, d, e, key, Polled(init));
    BeforeCommit(s, e, key, Polled(init));
    CommitKeeps(Ready(s, e), e.owned, e.accepted, key);
    assert !Drops(s, e, key);
    assert PeriodOf(events, key) == Acked(Taken(d, e, key), key, TakeIn(s, e).acks);
  }

  // ---------- what the period holds ----------

  /** The offsets of `key` among some records. */
  function OffsetsOf(records: seq<Record>, key: TopicPartition): set<int> {
    if records == [] then {}
    else
      var last := records[|records| - 1];
      OffsetsOf(records[..|records| - 1], key) + if last.Key() == key then {last.offset as int} else {}
  }

  function RecordsOf(decisions: seq<Decision>): (records: seq<Record>)
    ensures |records| == |decisions| && forall i | 0 <= i < |decisions| :: records[i] == decisions[i].record
  {
    seq(|decisions|, i requires 0 <= i < |decisions| => decisions[i].record)
  }

  /** A polled offset repeats one of the period or lies above them all. */
  ghost predicate InOrder(seen: set<int>, offset: int) {
    offset in seen || forall o | o in seen :: o < offset
  }

  ghost predicate RecordsInOrder(seen: set<int>, records: seq<Record>, key: TopicPartition) {
    forall i | 0 <= i < |records| && records[i].Key() == key ::
      InOrder(seen + OffsetsOf(records[..i], key), records[i].offset)
  }

  /** Within its period, first deliveries of `key` come in increasing offset order. */
  ghost predicate PolledInOrder(events: seq<Event>, key: TopicPartition) {
    events == [] ||
    var init, e := events[..|events| - 1], events[|events| - 1];
    (Run(init).state.Running? && Drops(Run(init).state.stream, e, key)) ||
    (PolledInOrder(init, key) && (e.Poll? ==> RecordsInOrder(PeriodOf(init, key).polled, RecordsOf(e.decisions), key)))
  }

  /** Admitted offsets are polled ones and the seed; polled ones are admitted, or lie below a late seed. */
  ghost predicate Placed(d: Period) {
    if d.history.baseline.None? then d.history == NoHistory && !d.late && forall o | o in d.polled :: o < 0
    else
      && Seed(d) in d.history.admitted && (d.late ==> Seed(d) in d.history.acked)
      && (forall a | a in d.history.admitted :: a in d.polled || (d.late && a == Seed(d)))
      && (forall o | o in d.polled && o >= 0 :: o in d.history.admitted || (d.late && o <= Seed(d)))
  }

  /** The settled frontier is an admitted offset or lies just below the seed. */
  lemma FrontierIsAdmitted(d: Period)
    requires d.history.baseline.Some? && WellFormed(d.history)
    ensures var f := SettledFrontier(d.history).value; f in d.history.admitted || f == Seed(d) - 1
  {
    if Settled(d.history) != {} { assert Max(Settled(d.history)) in Settled(d.history); }
  }

  lemma RegisterOnePlaced(d: Period, key: TopicPartition, offset: int)
    requires key.1 >= 0 && Placed(d) && WellFormed(d.history) && InOrder(d.polled, offset)
    requires offset >= 0 ==> Admit(d.history, offset).ok
    ensures Placed(d.(polled := d.polled + {offset},
                      history := if offset >= 0 then Admit(d.history, offset).history else d.history))
  {
    if offset >= 0 {
      if d.history.baseline.None? {
        FirstAdmission(d.history, offset);
      } else {
        FrontierIsAdmitted(d);
      }
    }
  }

  lemma AckOnePlaced(d: Period, key: TopicPartition, p: Point)
    requires Placed(d) && WellFormed(d.history) && (p.0 == key && Tracked(key, p.1) ==> Acknowledge(d.history, p.1).ok)
    ensures Placed(AckedOne(d, key, p))
  {
    if p.0 == key && Tracked(key, p.1) && d.history.baseline.None? { FirstAcknowledgement(d.history, p.1); }
  }

  lemma {:induction false} RegisterPolled(d: Period, key: TopicPartition, decisions: seq<Decision>)
    ensures Register(d, key, decisions).polled == d.polled + OffsetsOf(RecordsOf(decisions), key)
    ensures Register(d, key, decisions).late == d.late
  {
    if decisions == [] {
      assert OffsetsOf(RecordsOf(decisions), key) == {};
    } else {
      var n := |decisions| - 1;
      RegisterPolled(d, key, decisions[..n]);
      assert RecordsOf(decisions)[..n] == RecordsOf(decisions[..n]);
    }
  }

  lemma {:induction false} RegisterPlaced(table: Table, d: Period, key: TopicPartition, decisions: seq<Decision>)
    requires key.1 >= 0 && ValidTable(table) && Follows(table, d, key) && RegisterAll(table, decisions).ok
    requires Placed(d) && RecordsInOrder(d.polled, RecordsOf(decisions), key)
    ensures Placed(Register(d, key, decisions))
  {
    if decisions != [] {
      var n := |decisions| - 1;
      var init, p := decisions[..n], PointOf(decisions[n]);
      PrefixInOrder(d.polled, decisions, key);
      RegisterPlaced(table, d, key, init);
      RegisterFollows(table, d, key, init);
      if p.0 == key {
        var before := Register(d, key, init);
        RegisterPolled(d, key, init);
        assert RecordsOf(decisions)[..n] == RecordsOf(init);
        if p.1 >= 0 { AdmitRefines(TrackerOf(RegisterAll(table, init).table, key), before.history, p.1); }
        RegisterOnePlaced(before, key, p.1);
      }
    }
  }

  lemma PrefixInOrder(seen: set<int>, decisions: seq<Decision>, key: TopicPartition)
    requires decisions != [] && RecordsInOrder(seen, RecordsOf(decisions), key)
    ensures RecordsInOrder(seen, RecordsOf(decisions[..|decisions| - 1]), key)
  {
    var all, init := RecordsOf(decisions), RecordsOf(decisions[..|decisions| - 1]);
    forall i | 0 <= i < |init| && init[i].Key() == key
      ensures InOrder(seen + OffsetsOf(init[..i], key), init[i].offset)
    {
      assert init[..i] == all[..i] && init[i] == all[i];
    }
  }

  lemma {:induction false} AcksPlaced(s: Stream, d: Period, key: TopicPartition, acks: seq<Point>)
    requires ValidTable(s.table) && Follows(s.table, d, key) && AckAll(s, acks).ok && Placed(d)
    requires forall i | 0 <= i < |acks| :: acks[i].1 <= I64_MAX
    ensures Placed(Acked(d, key, acks))
  {
    if acks != [] {
      var init, p := acks[..|acks| - 1], acks[|acks| - 1];
      AcksPlaced(s, d, key, init);
      AcksFollow(s, d, key, init);
      AckAllAgrees(s, init, key);
      var before := AckAll(s, init).stream;
      if p.0 == key && Tracked(key, p.1) {
        AcknowledgeRefines(TrackerOf(before.table, key), Acked(d, key, init).history, p.1);
      }
      AckOnePlaced(Acked(d, key, init), key, p);
    }
  }

  /** An iteration that goes on to commit keeps every offset of an ordered period in its place. */
  lemma NextIsPlaced(s: Stream, d: Period, e: Event, key: TopicPartition, polled: set<Point>)
    requires key.1 >= 0 && Sound(s, key, polled) && Follows(s.table, d, key) && Placed(d)
    requires TakeIn(s, e).Proceed? && AckAll(TakeIn(s, e).stream, TakeIn(s, e).acks).ok
    requires e.Poll? ==> RecordsInOrder(d.polled, RecordsOf(e.decisions), key)
    ensures Placed(Acked(Taken(d, e, key), key, TakeIn(s, e).acks))
  {
    TakeInKeeps(s, e, key, polled);
    AcksAreInRange(s, e);
    if e.Poll? {
      RegisterFollows(s.table, d, key, e.decisions);
      RegisterPlaced(s.table, d, key, e.decisions);
    }
    AcksPlaced(TakeIn(s, e).stream, Taken(d, e, key), key, TakeIn(s, e).acks);
  }

  /** The last iteration registered and acknowledged all it had to. */
  ghost predicate Completed(events: seq<Event>) {
    events == [] ||
    var init, e := events[..|events| - 1], events[|events| - 1];
    && Run(init).state.Running? && TakeIn(Run(init).state.stream, e).Proceed?
    && AckAll(TakeIn(Run(init).state.stream, e).stream, TakeIn(Run(init).state.stream, e).acks).ok
  }

  lemma RunningIsCompleted(events: seq<Event>)
    requires Run(events).state.Running?
    ensures Completed(events)
  {
  }

  lemma SentIsCompleted(events: seq<Event>, key: TopicPartition)
    requires key in Run(events).sent
    ensures events != [] && Completed(events) && !Drops(Run(events[..|events| - 1]).state.stream, events[|events| - 1], key)
  {
    var init, e := events[..|events| - 1], events[|events| - 1];
    RunKeeps(init, key);
    BeforeCommit(Run(init).state.stream, e, key, Polled(init));
    CommitKeeps(Ready(Run(init).state.stream, e), e.owned, e.accepted, key);
  }

  lemma {:induction false} PeriodIsPlaced(events: seq<Event>, key: TopicPartition)
    requires key.1 >= 0 && Completed(events) && PolledInOrder(events, key)
    ensures Placed(PeriodOf(events, key))
  {
    if events != [] {
      var init, e := events[..|events| - 1], events[|events| - 1];
      var s := Run(init).state.stream;
      if !Drops(s, e, key) {
        RunningIsCompleted(init);
        PeriodIsPlaced(init, key);
        TrackerFollowsPeriod(init, key);
        RunKeeps(init, key);
        NextIsPlaced(s, PeriodOf(init, key), e, key, Polled(init));
      }
    }
  }

  // ---------- what the period holds was polled and answered ----------

  ghost predicate Recorded(d: Period, key: TopicPartition, polled: set<Point>, answered: set<Point>) {
    && (forall o | o in d.polled :: (key, o) in polled)
    && (forall o | o in d.history.admitted :: (key, o) in polled)
    && (forall o | o in d.history.acked :: (key, o) in answered)
  }

  lemma {:induction false} RegisterRecorded(d: Period, key: TopicPartition, decisions: seq<Decision>,
                                            polled: set<Point>, answered: set<Point>)
    requires Recorded(d, key, polled, answered)
    ensures Recorded(Register(d, key, decisions), key, polled + Seen(decisions), answered)
  {
    if decisions != [] {
      RegisterRecorded(d, key, decisions[..|decisions| - 1], polled, answered);
      SeenLast(decisions);
    }
  }

  lemma {:induction false} AckedRecorded(d: Period, key: TopicPartition, acks: seq<Point>,
                                         polled: set<Point>, answered: set<Point>)
    requires Recorded(d, key, polled, answered)
    requires forall i | 0 <= i < |acks| :: acks[i] in answered && (acks[i].0 == key ==> acks[i] in polled)
    ensures Recorded(Acked(d, key, acks), key, polled, answered)
  {
    if acks != [] {
      AckedRecorded(d, key, acks[..|acks| - 1], polled, answered);
      var p := acks[|acks| - 1];
      assert p == (p.0, p.1);
    }
  }

  lemma NextIsRecorded(s: Stream, d: Period, e: Event, key: TopicPartition, polled: set<Point>, answered: set<Point>)
    requires Sound(s, key, polled) && Recorded(d, key, polled, answered) && TakeIn(s, e).Proceed?
    ensures Recorded(Acked(Taken(d, e, key), key, TakeIn(s, e).acks), key, polled + PolledBy(e), answered + AnsweredBy(e))
  {
    var acks := TakeIn(s, e).acks;
    forall i | 0 <= i < |acks|
      ensures acks[i] in answered + AnsweredBy(e) && (acks[i].0 == key ==> acks[i] in polled + PolledBy(e))
    {
      AcksAreAnswers(s, e, key, polled, i);
    }
    if e.Poll? { RegisterRecorded(d, key, e.decisions, polled, answered); }
    AckedRecorded(Taken(d, e, key), key, acks, polled + PolledBy(e), answered + AnsweredBy(e));
  }

  lemma {:induction false} PeriodIsRecorded(events: seq<Event>, key: TopicPartition)
    ensures Recorded(PeriodOf(events, key), key, Polled(events), Answered(events))
  {
    if events != [] {
      var init, e := events[..|events| - 1], events[|events| - 1];
      PeriodIsRecorded(init, key);
      if Run(init).state.Running? && TakeIn(Run(init).state.stream, e).Proceed? {
        RunKeeps(init, key);
        NextIsRecorded(Run(init).state.stream, PeriodOf(init, key), e, key, Polled(init), Answered(init));
      }
    }
  }

  // ---------- what a drop leaves behind ----------

  /** How many events had happened when the period of `key` began. */
  ghost function Began(events: seq<Event>, key: TopicPartition): (n: nat)
    ensures n <= |events|
  {
    if events == [] then 0
    else
      var init := events[..|events| - 1];
      if Run(init).state.Running? && Drops(Run(init).state.stream, events[|events| - 1], key) then |events|
      else Began(init, key)
  }

  /** Records of `key` polled and not answered when its period began. */
  ghost function LeftAtDrop(events: seq<Event>, key: TopicPartition): set<Point> {
    var before := events[..Began(events, key)];
    set p | p in Polled(before) && p.0 == key && p !in Answered(before)
  }

  lemma {:induction false} AnswersStay(events: seq<Event>, n: nat)
    requires n <= |events|
    ensures Answered(events[..n]) <= Answered(events) && Polled(events[..n]) <= Polled(events)
    decreases |events|
  {
    if n == |events| {
      assert events[..n] == events;
    } else {
      var init := events[..|events| - 1];
      AnswersStay(init, n);
      assert init[..n] == events[..n];
    }
  }

  /** A polled record of `key` was polled in its period or before it began. */
  lemma {:induction false} PolledSinceOrBefore(events: seq<Event>, key: TopicPartition, p: Point)
    requires Completed(events) && p in Polled(events) && p.0 == key
    ensures p.1 in PeriodOf(events, key).polled || p in Polled(events[..Began(events, key)])
  {
    hide Commit, AckAll, RegisterAll;
    var init, e := events[..|events| - 1], events[|events| - 1];
    var s, d := Run(init).state.stream, PeriodOf(init, key);
    if Drops(s, e, key) {
      assert events[..|events|] == events;
    } else {
      assert init[..Began(init, key)] == events[..Began(init, key)];
      AckedPolled(Taken(d, e, key), key, TakeIn(s, e).acks);
      if p in PolledBy(e) {
        SeenIsRegistered(d, key, e.decisions, p);
      } else {
        RunningIsCompleted(init);
        PolledSinceOrBefore(init, key, p);
        if e.Poll? { RegisterPolled(d, key, e.decisions); }
      }
    }
  }

  lemma {:induction false} AckedPolled(d: Period, key: TopicPartition, acks: seq<Point>)
    ensures Acked(d, key, acks).polled == d.polled
  {
    if acks != [] { AckedPolled(d, key, acks[..|acks| - 1]); }
  }

  lemma {:induction false} SeenIsRegistered(d: Period, key: TopicPartition, decisions: seq<Decision>, p: Point)
    requires p in Seen(decisions) && p.0 == key
    ensures p.1 in Register(d, key, decisions).polled
  {
    SeenLast(decisions);
    var init := decisions[..|decisions| - 1];
    if p in Seen(init) { SeenIsRegistered(d, key, init, p); }
  }

  lemma LeftOver(events: seq<Event>, key: TopicPartition, p: Point)
    requires Completed(events) && p in Polled(events) && p.0 == key && p !in Answered(events)
    requires p.1 !in PeriodOf(events, key).polled
    ensures p in LeftAtDrop(events, key)
  {
    PolledSinceOrBefore(events, key, p);
    AnswersStay(events, Began(events, key));
  }

  // ---------- commit safety ----------

  /** Offset `x` is below something the period has settled. */
  ghost predicate Passed(d: Period, x: int)
    requires d.history.baseline.Some?
  {
    x <= Seed(d) || exists o | o in Settled(d.history) :: x <= o
  }

  lemma PassedExactly(d: Period, x: int)
    requires d.history.baseline.Some? && WellFormed(d.history) && Seed(d) <= SettledFrontier(d.history).value
    ensures x <= SettledFrontier(d.history).value <==> Passed(d, x)
  {
    var f := SettledFrontier(d.history).value;
    assert Settled(d.history) != {};
    assert Max(Settled(d.history)) == f && f in Settled(d.history);
  }

  /** An unanswered record of the period is covered exactly when a late acknowledgement made the tracker above it. */
  lemma UnansweredInPeriod(d: Period, key: TopicPartition, o: int, polled: set<Point>, answered: set<Point>)
    requires d.history.baseline.Some? && WellFormed(d.history) && Seed(d) <= SettledFrontier(d.history).value
    requires Placed(d) && Recorded(d, key, polled, answered)
    requires o in d.polled && o >= 0 && (key, o) !in answered
    ensures o <= SettledFrontier(d.history).value <==> d.late && o <= Seed(d)
  {
    if o in d.history.admitted {
      SettledIsBelowFrontier(d.history, o);
      assert o in Settled(d.history) ==> o in d.history.acked;
      SeedIsSettled(d);
    }
  }

  lemma SeedIsSettled(d: Period)
    requires d.history.baseline.Some? && WellFormed(d.history) && Seed(d) <= SettledFrontier(d.history).value
    requires Seed(d) in d.history.admitted
    ensures Seed(d) in d.history.acked
    ensures forall a | a in d.history.admitted :: Seed(d) <= a
  {
    SettledIsBelowFrontier(d.history, Seed(d));
    assert Seed(d) in Settled(d.history);
  }

  /**
   Exactly what a commit passes, in every run and whatever was owned when. Take a record of
   the partition that was polled and never answered. If it was polled in the period, a commit
   covers it exactly when a late acknowledgement seeded the tracker at or above it. If not, it
   was left unanswered by a drop, and a commit covers it exactly when the seed or something
   the period has settled lies at or above it.
   */
  lemma CommitsPassExactly(events: seq<Event>, key: TopicPartition, p: Point)
    requires PolledInOrder(events, key) && key in Run(events).sent
    requires p in Polled(events) && p.0 == key && p.1 >= 0 && p !in Answered(events)
    ensures var d := PeriodOf(events, key);
      && d.history.baseline.Some?
      && (p.1 in d.polled || p in LeftAtDrop(events, key))
      && (p.1 < Run(events).sent[key] <==> if p.1 in d.polled then d.late && p.1 <= Seed(d) else Passed(d, p.1))
  {
    var d := PeriodOf(events, key);
    SentIsExact(events, key);
    SentIsCompleted(events, key);
    PeriodIsPlaced(events, key);
    PeriodIsRecorded(events, key);
    if p.1 in d.polled {
      assert p == (key, p.1);
      UnansweredInPeriod(d, key, p.1, Polled(events), Answered(events));
    } else {
      LeftOver(events, key, p);
      PassedExactly(d, p.1);
    }
  }

  /** Every polled record of `key` below `c` was answered. */
  ghost predicate CoversOnlyAnswered(polled: set<Point>, answered: set<Point>, key: TopicPartition, c: int) {
    forall p | p in polled && p.0 == key && 0 <= p.1 < c :: p in answered
  }

  /** What must not be there: a leftover of a drop below what is settled, or a polled record below a late seed. */
  ghost predicate NothingToSkip(d: Period, left: set<Point>, answered: set<Point>, key: TopicPartition)
    requires d.history.baseline.Some?
  {
    && (forall p | p in left && p.1 >= 0 && p.1 !in d.polled && p !in answered :: !Passed(d, p.1))
    && (d.late ==> forall o | o in d.polled && 0 <= o <= Seed(d) :: (key, o) in answered)
  }

  /** What `CommitsPassExactly` says of one record. */
  ghost predicate PassedOrNot(d: Period, left: set<Point>, key: TopicPartition, c: int, p: Point)
    requires d.history.baseline.Some?
  {
    && (p.1 in d.polled || p in left)
    && (p.1 < c <==> if p.1 in d.polled then d.late && p.1 <= Seed(d) else Passed(d, p.1))
  }

  lemma SafeIsNothingToSkip(d: Period, left: set<Point>, polled: set<Point>, answered: set<Point>, key: TopicPartition, c: int)
    requires d.history.baseline.Some? && Recorded(d, key, polled, answered)
    requires forall p | p in left :: p in polled && p.0 == key
    requires forall p | p in polled && p.0 == key && p.1 >= 0 && p !in answered :: PassedOrNot(d, left, key, c, p)
    ensures CoversOnlyAnswered(polled, answered, key, c) <==> NothingToSkip(d, left, answered, key)
  {
    if CoversOnlyAnswered(polled, answered, key, c) {
      forall o | d.late && o in d.polled && 0 <= o <= Seed(d) ensures (key, o) in answered {
        assert (key, o) in polled;
      }
      forall p | p in left && p.1 >= 0 && p.1 !in d.polled && p !in answered ensures !Passed(d, p.1) {
        assert PassedOrNot(d, left, key, c, p);
      }
    }
    if NothingToSkip(d, left, answered, key) {
      forall p | p in polled && p.0 == key && 0 <= p.1 < c ensures p in answered {
        assert p == (key, p.1);
      }
    }
  }

  /** A commit covers answered records only if and only if there was nothing to skip. */
  lemma SafeExactlyWhenNothingToSkip(events: seq<Event>, key: TopicPartition)
    requires PolledInOrder(events, key) && key in Run(events).sent
    ensures PeriodOf(events, key).history.baseline.Some?
    ensures CoversOnlyAnswered(Polled(events), Answered(events), key, Run(events).sent[key]) <==>
            NothingToSkip(PeriodOf(events, key), LeftAtDrop(events, key), Answered(events), key)
  {
    SentIsExact(events, key);
    PeriodIsRecorded(events, key);
    AnswersStay(events, Began(events, key));
    var d, left, c := PeriodOf(events, key), LeftAtDrop(events, key), Run(events).sent[key];
    forall p | p in Polled(events) && p.0 == key && p.1 >= 0 && p !in Answered(events)
      ensures PassedOrNot(d, left, key, c, p)
    {
      CommitsPassExactly(events, key, p);
    }
    SafeIsNothingToSkip(d, left, Polled(events), Answered(events), key, c);
  }

  /**
   Commit safety of every period: for every interleaving of polls, filtered records and client
   acknowledgements, a commit covers no record polled in the period that was neither filtered
   out nor acknowledged, unless a late acknowledgement made the tracker.
   */
  lemma CommitsCoverOnlyAnswered(events: seq<Event>, key: TopicPartition, p: Point)
    requires PolledInOrder(events, key) && key in Run(events).sent && !PeriodOf(events, key).late
    requires p.0 == key && p.1 in PeriodOf(events, key).polled && 0 <= p.1 < Run(events).sent[key]
    ensures p in Answered(events)
  {
    PeriodIsRecorded(events, key);
    assert p == (key, p.1) && p in Polled(events);
    if p !in Answered(events) { CommitsPassExactly(events, key, p); }
  }

  // ---------- when no late acknowledgement can make the tracker ----------

  /** A period with a tracked poll has a tracker, and the tracker was made for an admitted offset. */
  ghost predicate Seeded(d: Period) {
    && WellFormed(d.history)
    && if d.history.baseline.None? then forall o | o in d.polled :: o < 0 else Seed(d) in d.history.admitted && Seed(d) >= 0
  }

  lemma AdmitWellFormed(h: History, offset: int)
    requires WellFormed(h)
    ensures WellFormed(Admit(h, offset).history) && h.admitted <= Admit(h, offset).history.admitted
  {
    if h.baseline.Some? && Settled(h) != {} { assert Max(Settled(h)) in Settled(h); }
  }

  lemma AcknowledgeWellFormed(h: History, offset: int)
    requires WellFormed(h)
    ensures WellFormed(Acknowledge(h, offset).history) && h.admitted <= Acknowledge(h, offset).history.admitted
  {
    AdmitWellFormed(h, offset);
  }

  lemma {:induction false} RegisterSeeded(d: Period, key: TopicPartition, decisions: seq<Decision>)
    requires key.1 >= 0 && Seeded(d)
    ensures Seeded(Register(d, key, decisions))
  {
    if decisions != [] {
      RegisterSeeded(d, key, decisions[..|decisions| - 1]);
      AdmitSeeded(Register(d, key, decisions[..|decisions| - 1]), decisions[|decisions| - 1].record.offset);
    }
  }

  lemma AdmitSeeded(d: Period, o: int)
    requires Seeded(d)
    ensures Seeded(d.(polled := d.polled + {o}, history := if o >= 0 then Admit(d.history, o).history else d.history))
  {
    hide Admit;
    AdmitWellFormed(d.history, o);
    if d.history.baseline.None? { FirstAdmission(d.history, o); } else { BaselineStays(d.history, o); }
  }

  lemma AckOneSeeded(d: Period, key: TopicPartition, p: Point)
    requires Seeded(d)
    ensures Seeded(AckedOne(d, key, p))
  {
    hide Acknowledge;
    AcknowledgeWellFormed(d.history, p.1);
    if d.history.baseline.Some? { BaselineStays(d.history, p.1); } else { FirstAcknowledgement(d.history, p.1); }
  }

  lemma {:induction false} AckedSeeded(d: Period, key: TopicPartition, acks: seq<Point>)
    requires Seeded(d)
    ensures Seeded(Acked(d, key, acks))
    ensures d.history.baseline.Some? ==>
      Acked(d, key, acks).history.baseline == d.history.baseline && Acked(d, key, acks).late == d.late
  {
    if acks != [] {
      var before := Acked(d, key, acks[..|acks| - 1]);
      AckedSeeded(d, key, acks[..|acks| - 1]);
      AckOneSeeded(before, key, acks[|acks| - 1]);
      if before.history.baseline.Some? { BaselineStays(before.history, acks[|acks| - 1].1); }
    }
  }

  lemma {:induction false} PeriodIsSeeded(events: seq<Event>, key: TopicPartition)
    requires key.1 >= 0 && Run(events).state.Running?
    ensures Seeded(PeriodOf(events, key))
  {
    if events != [] {
      var init, e := events[..|events| - 1], events[|events| - 1];
      PeriodIsSeeded(init, key);
      TrackerFollowsPeriod(init, key);
      if e.Poll? { RegisterSeeded(PeriodOf(init, key), key, e.decisions); }
      AckedSeeded(Taken(PeriodOf(init, key), e, key), key, TakeIn(Run(init).state.stream, e).acks);
    }
  }

  /** An acknowledgement that finds no tracker is a client's, of a record not polled in the period. */
  lemma OnlyClientsAreLate(s: Stream, d: Period, e: Event, key: TopicPartition)
    requires key.1 >= 0 && Seeded(d) && TakeIn(s, e).Proceed? && !d.late
    requires Acked(Taken(d, e, key), key, TakeIn(s, e).acks).late
    ensures e.ClientAck? && e.key == key && e.offset >= 0 && e.offset in DeliveredOf(s.delivered, key)
    ensures d.history.baseline.None? && e.offset !in d.polled
  {
    var acks := TakeIn(s, e).acks;
    if e.Poll? {
      var taken := Register(d, key, e.decisions);
      RegisterSeeded(d, key, e.decisions);
      RegisterPolled(d, key, e.decisions);
      forall i | 0 <= i < |acks| && acks[i].0 == key && acks[i].1 >= 0 ensures acks[i].1 in taken.polled {
        FilteredAreSeen(e.decisions, i);
        SeenIsRegistered(d, key, e.decisions, acks[i]);
      }
      PolledAcksAreNotLate(taken, key, acks);
    } else if acks != [] {
      assert acks[..0] == [] && Acked(d, key, acks) == AckedOne(d, key, acks[0]);
    }
  }

  lemma {:induction false} PolledAcksAreNotLate(d: Period, key: TopicPartition, acks: seq<Point>)
    requires Seeded(d) && !d.late
    requires forall i | 0 <= i < |acks| && acks[i].0 == key && acks[i].1 >= 0 :: acks[i].1 in d.polled
    ensures !Acked(d, key, acks).late
  {
    if d.history.baseline.Some? {
      AckedSeeded(d, key, acks);
    } else if acks != [] {
      PolledAcksAreNotLate(d, key, acks[..|acks| - 1]);
      AckedUntracked(d, key, acks[..|acks| - 1]);
    }
  }

  lemma {:induction false} AckedUntracked(d: Period, key: TopicPartition, acks: seq<Point>)
    requires forall i | 0 <= i < |acks| :: acks[i].0 != key || !Tracked(key, acks[i].1)
    ensures Acked(d, key, acks) == d
  {
    if acks != [] { AckedUntracked(d, key, acks[..|acks| - 1]); }
  }

  /** Every client acknowledgement of the period names a record polled in it. */
  ghost predicate AcksNamePolled(events: seq<Event>, key: TopicPartition) {
    forall i | Began(events, key) <= i < |events| && events[i].ClientAck? && events[i].key == key ::
      events[i].offset in PeriodOf(events[..i], key).polled
  }

  lemma PrefixNamesPolled(events: seq<Event>, key: TopicPartition)
    requires events != [] && AcksNamePolled(events, key) && Began(events, key) < |events|
    ensures AcksNamePolled(events[..|events| - 1], key)
  {
    var init := events[..|events| - 1];
    forall i | Began(init, key) <= i < |init| && init[i].ClientAck? && init[i].key == key
      ensures init[i].offset in PeriodOf(init[..i], key).polled
    {
      assert init[..i] == events[..i];
    }
  }

  /** Then no late acknowledgement made the tracker, and the period's commits are safe. */
  lemma {:induction false} NamedAcksAreNotLate(events: seq<Event>, key: TopicPartition)
    requires key.1 >= 0 && Completed(events) && AcksNamePolled(events, key)
    ensures !PeriodOf(events, key).late
  {
    if events != [] {
      var n := |events| - 1;
      var init, e := events[..n], events[n];
      var s, d := Run(init).state.stream, PeriodOf(init, key);
      if !Drops(s, e, key) {
        PrefixNamesPolled(events, key);
        RunningIsCompleted(init);
        NamedAcksAreNotLate(init, key);
        PeriodIsSeeded(init, key);
        TrackerFollowsPeriod(init, key);
        if PeriodOf(events, key).late { OnlyClientsAreLate(s, d, e, key); }
      }
    }
  }

  /** Until a tracker is dropped there is no late acknowledgement, and the period holds every tracked poll. */
  lemma {:induction false} FirstPeriodHoldsAll(events: seq<Event>, key: TopicPartition, p: Point)
    requires key.1 >= 0 && Completed(events) && NeverForgotten(events, key)
    ensures !PeriodOf(events, key).late
    ensures p in Polled(events) && p.0 == key && p.1 >= 0 ==> p.1 in PeriodOf(events, key).polled
  {
    if events != [] {
      var n := |events| - 1;
      var init, e := events[..n], events[n];
      var s, d := Run(init).state.stream, PeriodOf(init, key);
      RunningIsCompleted(init);
      PrefixIsNeverForgotten(events, key);
      FirstPeriodHoldsAll(init, key, p);
      FirstStep(init, e, key);
      assert events[..n] == init && !Forgets(s, e, key);
      if p in Polled(events) && p.0 == key && p.1 >= 0 { TakenHolds(d, e, key, p, Polled(init)); }
    }
  }

  lemma TakenHolds(d: Period, e: Event, key: TopicPartition, p: Point, polled: set<Point>)
    requires p in polled + PolledBy(e) && p.0 == key && (p in polled ==> p.1 in d.polled)
    ensures p.1 in Taken(d, e, key).polled
  {
    if p in PolledBy(e) { SeenIsRegistered(d, key, e.decisions, p); }
    else if e.Poll? { RegisterPolled(d, key, e.decisions); }
  }

  /** One step of that: no late acknowledgement, and a drop finds nothing polled. */
  lemma FirstStep(init: seq<Event>, e: Event, key: TopicPartition)
    requires key.1 >= 0 && Run(init).state.Running? && NeverForgotten(init, key) && !PeriodOf(init, key).late
    requires var s := Run(init).state.stream;
      && TakeIn(s, e).Proceed? && AckAll(TakeIn(s, e).stream, TakeIn(s, e).acks).ok && !Forgets(s, e, key)
    ensures var s, d := Run(init).state.stream, PeriodOf(init, key);
      && !NextPeriod(s, d, e, key).late
      && (Drops(s, e, key) ==> forall o | o in Taken(d, e, key).polled :: o < 0)
      && (!Drops(s, e, key) ==> NextPeriod(s, d, e, key).polled == Taken(d, e, key).polled)
  {
    var s, d := Run(init).state.stream, PeriodOf(init, key);
    var acks := TakeIn(s, e).acks;
    RunKeeps(init, key);
    TrackerFollowsPeriod(init, key);
    PeriodIsSeeded(init, key);
    AckedPolled(Taken(d, e, key), key, acks);
    if Acked(Taken(d, e, key), key, acks).late { OnlyClientsAreLate(s, d, e, key); }
    if Drops(s, e, key) {
      ReadyFollows(s, d, e, key, Polled(init));
      if e.Poll? { RegisterSeeded(d, key, e.decisions); }
      AckedSeeded(Taken(d, e, key), key, acks);
    }
  }

  /**
   Commit safety until a tracker of the partition is dropped, whenever it was assigned: every
   polled record below a commit was filtered out or acknowledged.
   */
  lemma FirstPeriodIsSafe(events: seq<Event>, key: TopicPartition)
    requires PolledInOrder(events, key) && key in Run(events).sent && NeverForgotten(events, key)
    ensures CoversOnlyAnswered(Polled(events), Answered(events), key, Run(events).sent[key])
  {
    SentIsExact(events, key);
    SentIsCompleted(events, key);
    forall p | p in Polled(events) && p.0 == key && 0 <= p.1 < Run(events).sent[key] ensures p in Answered(events) {
      FirstPeriodHoldsAll(events, key, p);
      CommitsCoverOnlyAnswered(events, key, p);
    }
  }

  /** Owning the partition from the first event that polls it is enough. */
  lemma OwnedOncePolledIsNeverForgotten(events: seq<Event>, key: TopicPartition)
    requires key.1 >= 0
    requires forall i, p | 0 <= i < |events| && p in Polled(events[..i + 1]) && p.0 == key :: key in events[i].owned
    ensures NeverForgotten(events, key)
  {
    forall i | 0 <= i < |events| && Run(events[..i]).state.Running?
      ensures !Forgets(Run(events[..i]).state.stream, events[i], key)
    {
      var s, d, e := Run(events[..i]).state.stream, PeriodOf(events[..i], key), events[i];
      if Forgets(s, e, key) { ForgottenWasPolled(events, i, key); }
    }
  }

  /** A tracker that is dropped was made for an offset that had been polled. */
  lemma ForgottenIsAdmitted(s: Stream, d: Period, e: Event, key: TopicPartition, polled: set<Point>, answered: set<Point>)
    requires key.1 >= 0 && Sound(s, key, polled) && Follows(s.table, d, key) && Seeded(d)
    requires Recorded(d, key, polled, answered) && Forgets(s, e, key)
    ensures var q := Acked(Taken(d, e, key), key, TakeIn(s, e).acks);
      q.history.baseline.Some? && (key, Seed(q)) in polled + PolledBy(e)
  {
    ReadyFollows(s, d, e, key, polled);
    NextIsRecorded(s, d, e, key, polled, answered);
    NextIsSeeded(s, d, e, key);
  }

  lemma ForgottenWasPolled(events: seq<Event>, i: nat, key: TopicPartition)
    requires key.1 >= 0 && i < |events| && Run(events[..i]).state.Running?
    requires Forgets(Run(events[..i]).state.stream, events[i], key)
    ensures exists o :: (key, o) in Polled(events[..i + 1])
  {
    hide Run, Forgets, PeriodOf;
    var init, e := events[..i], events[i];
    RunKeeps(init, key);
    TrackerFollowsPeriod(init, key);
    PeriodIsRecorded(init, key);
    PeriodIsSeeded(init, key);
    ForgottenIsAdmitted(Run(init).state.stream, PeriodOf(init, key), e, key, Polled(init), Answered(init));
    assert events[..i + 1][..i] == init && Polled(events[..i + 1]) == Polled(init) + PolledBy(e);
  }

  lemma NextIsSeeded(s: Stream, d: Period, e: Event, key: TopicPartition)
    requires key.1 >= 0 && Seeded(d) && TakeIn(s, e).Proceed?
    ensures Seeded(Acked(Taken(d, e, key), key, TakeIn(s, e).acks))
  {
    if e.Poll? { RegisterSeeded(d, key, e.decisions); }
    AckedSeeded(Taken(d, e, key), key, TakeIn(s, e).acks);
  }

  // ---------- accepted acknowledgements ----------

  lemma OneAck(s: Stream, p: Point, e: Event)
    ensures AckAll(s, [p]) == AckOne(s, p)
    ensures AckAndCommit(s, [p], e).state == Stopped(AckUntracked) <==> !AckOne(s, p).ok
  {
    var acks := [p];
    assert acks[..0] == [];
    assert AckAll(s, acks[..0]) == Acknowledged(true, s);
  }

  lemma AckRefusedExactly(table: Table, d: Period, key: TopicPartition, offset: int)
    requires Follows(table, d, key) && offset <= I64_MAX
    ensures SessionAck(table, key, offset).ok <==>
      !(Tracked(key, offset) && d.history.baseline.Some?
        && offset > SettledFrontier(d.history).value && offset !in d.history.admitted)
  {
    if Tracked(key, offset) {
      AcknowledgeRefines(TrackerOf(table, key), d.history, offset);
      if d.history.baseline.None? { FirstAcknowledgement(d.history, offset); }
    }
  }

  /**
   In every run, an acknowledgement that `validate_ack` accepts is unknown to the session
   exactly when the period has a tracker, the offset is above its frontier and was never
   admitted in the period.
   */
  lemma AcceptedAckFailsExactly(events: seq<Event>)
    requires events != [] && Run(events[..|events| - 1]).state.Running? && events[|events| - 1].ClientAck?
    requires var e := events[|events| - 1]; ValidateAck(Run(events[..|events| - 1]).state.stream, e.key, e.offset) == Advance
    ensures var e := events[|events| - 1]; var d := PeriodOf(events[..|events| - 1], e.key);
      Run(events).state == Stopped(AckUntracked) <==>
      (Tracked(e.key, e.offset) && d.history.baseline.Some?
       && e.offset > SettledFrontier(d.history).value && e.offset !in d.history.admitted)
  {
    var init, e := events[..|events| - 1], events[|events| - 1];
    var s := Run(init).state.stream;
    TrackerFollowsPeriod(init, e.key);
    AckRefusedExactly(s.table, PeriodOf(init, e.key), e.key, e.offset);
    OneAck(s, (e.key, e.offset), e);
    assert Step(s, e) == AckAndCommit(s, [(e.key, e.offset)], e);
  }

  /** An accepted acknowledgement of a record polled in the period is always known to the session. */
  lemma AckOfPolledIsTracked(events: seq<Event>)
    requires events != [] && Run(events[..|events| - 1]).state.Running? && events[|events| - 1].ClientAck?
    requires PolledInOrder(events[..|events| - 1], events[|events| - 1].key)
    requires events[|events| - 1].offset in PeriodOf(events[..|events| - 1], events[|events| - 1].key).polled
    ensures Run(events).state != Stopped(AckUntracked)
  {
    var init, e := events[..|events| - 1], events[|events| - 1];
    var s, d := Run(init).state.stream, PeriodOf(init, e.key);
    if ValidateAck(s, e.key, e.offset) == Advance {
      AcceptedAckFailsExactly(events);
      if e.key.1 >= 0 {
        RunningIsCompleted(init);
        PeriodIsPlaced(init, e.key);
        TrackerFollowsPeriod(init, e.key);
        if d.history.baseline.Some? && d.late { LateSeedIsSettled(d); }
      }
    } else {
      assert AckAll(s, []) == Acknowledged(true, s);
    }
  }

  /** A late acknowledgement settles the offset it seeds the tracker with. */
  lemma LateSeedIsSettled(d: Period)
    requires Placed(d) && WellFormed(d.history) && d.history.baseline.Some? && d.late
    ensures Seed(d) <= SettledFrontier(d.history).value
  {
    assert Seed(d) in Settled(d.history);
    SettledIsBelowFrontier(d.history, Seed(d));
  }

  // ---------- commits only increase ----------

  /** The tracker remembers a commit of `c` or of something later. */
  ghost predicate Remembers(table: Table, key: TopicPartition, c: int) {
    key in table && table[key].committed.Some? && c <= table[key].committed.value + 1
  }

  lemma StepRemembers(s: Stream, e: Event, key: TopicPartition, polled: set<Point>, c: int)
    requires Sound(s, key, polled) && Step(s, e).state.Running? && !Drops(s, e, key)
    requires Remembers(s.table, key, c) || (key in Step(s, e).sent && Step(s, e).sent[key] == c)
    ensures Remembers(Step(s, e).state.stream.table, key, c)
  {
    StepForward(s, e, key, polled);
    if key in s.table { assert Advances(s.table[key], Step(s, e).state.stream.table[key]); }
  }

  /** A commit sent earlier in the period bounds what the tracker remembers as committed. */
  lemma {:induction false} CommitIsRemembered(events: seq<Event>, i: nat, key: TopicPartition)
    requires Began(events, key) <= i < |events| && key in Run(events[..i + 1]).sent && Run(events).state.Running?
    ensures Remembers(Run(events).state.stream.table, key, Run(events[..i + 1]).sent[key])
  {
    var n := |events| - 1;
    if i == n {
      assert events[..i + 1] == events;
    } else {
      assert events[..n][..i + 1] == events[..i + 1];
      CommitIsRemembered(events[..n], i, key);
    }
    LastStepRemembers(events, key, Run(events[..i + 1]).sent[key]);
  }

  lemma LastStepRemembers(events: seq<Event>, key: TopicPartition, c: int)
    requires events != [] && Run(events).state.Running? && Began(events, key) < |events|
    requires var init := events[..|events| - 1];
      || (Run(init).state.Running? && Remembers(Run(init).state.stream.table, key, c))
      || (key in Run(events).sent && Run(events).sent[key] == c)
    ensures Remembers(Run(events).state.stream.table, key, c)
  {
    var init, e := events[..|events| - 1], events[|events| - 1];
    RunKeeps(init, key);
    StepRemembers(Run(init).state.stream, e, key, Polled(init), c);
  }

  lemma NextCommitIsAbove(events: seq<Event>, e: Event, i: nat, key: TopicPartition)
    requires Began(events, key) <= i < |events| && Run(events).state.Running?
    requires key in Run(events[..i + 1]).sent && key in Step(Run(events).state.stream, e).sent
    ensures Run(events[..i + 1]).sent[key] < Step(Run(events).state.stream, e).sent[key] <= I64_MAX
  {
    CommitIsRemembered(events, i, key);
    RunKeeps(events, key);
    SentIsNew(Run(events).state.stream, e, key, Polled(events));
  }

  lemma LastCommitInPeriod(events: seq<Event>, key: TopicPartition)
    requires key in Run(events).sent
    ensures events != [] && var init := events[..|events| - 1];
      && Run(init).state.Running? && Began(events, key) == Began(init, key)
      && Run(events) == Step(Run(init).state.stream, events[|events| - 1])
  {
    SentIsCompleted(events, key);
  }

  /** Successive commits of one period strictly increase and stay within `i64`. */
  lemma CommitsIncrease(events: seq<Event>, i: nat, key: TopicPartition)
    requires Began(events, key) <= i < |events| - 1
    requires key in Run(events[..i + 1]).sent && key in Run(events).sent
    ensures Run(events[..i + 1]).sent[key] < Run(events).sent[key] <= I64_MAX
  {
    hide Step;
    LastCommitInPeriod(events, key);
    assert events[..|events| - 1][..i + 1] == events[..i + 1];
    NextCommitIsAbove(events[..|events| - 1], events[|events| - 1], i, key);
  }
}
