/**
 Runs in which a partition is lost at a commit and comes back, and the stream's maps and the new
 tracker do not fit: a commit passes a record nobody answered, an acknowledgement the stream
 accepts stops it, and an acknowledgement the frontier waits for is dismissed. They are instances
 of the exact conditions in `OwnershipPeriods` and `Dismissals`.
 */
module Revocation {
  import opened Wrappers
  import opened Records
  import opened AckFrontier
  import opened Subscribe
  import opened OwnershipPeriods
  import opened Dismissals

  const Revoked: TopicPartition := ("orders", 0)
  const Other: TopicPartition := ("orders", 1)

  function At(key: TopicPartition, offset: I64): Record {
    Record(key.0, key.1, offset, [], None, None)
  }

  const FirstPoll: Event := Poll([Decision.Deliver(At(Revoked, 10)), Decision.Deliver(At(Revoked, 30))], {Revoked}, true)
  const RevokingPoll: Event := Poll([Filter(At(Other, 0))], {Other}, true)
  const LateAck: Event := ClientAck(Revoked, 30, {Revoked}, true)
  const LaterPoll: Event := Poll([Filter(At(Revoked, 20))], {Revoked}, true)

  // ---------- single steps ----------

  lemma OneFiltered(s: Stream, d: Decision)
    requires d.Filter?
    ensures RegisterAll(s.table, [d]) == SessionDeliver(s.table, d.record.Key(), d.record.offset)
    ensures Filtered([d]) == [PointOf(d)] && Note(s.delivered, [d]) == s.delivered
    ensures Seen([d]) == {PointOf(d)} && SeenFiltered([d]) == {PointOf(d)}
  {
    assert [d][..0] == [];
    SeenLast([d]);
    assert Seen([d][..0]) == {};
    assert [d][0].Filter?;
  }

  /** A tracker for one record, registered and then acknowledged. */
  lemma SeededPoll(table: Table, key: TopicPartition, offset: int)
    requires key !in table && Tracked(key, offset)
    ensures var r := SessionDeliver(table, key, offset);
      && r == TableOutcome(true, table[key := Tracker(Some(offset - 1), {offset}, {}, Some(offset - 1))])
      && SessionAck(r.table, key, offset).ok
      && SessionAck(r.table, key, offset).table[key] == Tracker(Some(offset), {}, {}, Some(offset - 1))
      && SessionAck(r.table, key, offset).table.Keys == table.Keys + {key}
  {
    var seeded := Tracker(Some(offset - 1), {offset}, {}, Some(offset - 1));
    assert {} + {offset} == {offset};
    var t := seeded.(pending := {offset});
    KeptIsUnique({offset}, {offset}, {});
    assert Drained(t) == Tracker(Some(offset), {}, {}, Some(offset - 1));
  }

  lemma CommitOf(s: Stream, p: Point, e: Event)
    requires AckOne(s, p).ok
    ensures AckAndCommit(s, [p], e).sent == Commit(AckOne(s, p).stream.table, e.owned, e.accepted).sent
    ensures var c := Commit(AckOne(s, p).stream.table, e.owned, e.accepted);
      c.ok ==> AckAndCommit(s, [p], e).state == Running(AckOne(s, p).stream.(table := c.table))
  {
    OneAck(s, p, e);
  }

  lemma CommitSends(table: Table, owned: set<TopicPartition>, accepted: bool, key: TopicPartition, f: int)
    requires key in table && key in owned && table[key].frontier == Some(f) && table[key].committed != Some(f) && f < I64_MAX
    ensures key in Commit(table, owned, accepted).sent && Commit(table, owned, accepted).sent[key] == f + 1
  {
    assert key in Retained(table, owned);
    assert key in AckedOffsets(Retained(table, owned));
  }

  /** An acknowledgement that finds no tracker commits just past itself. */
  lemma LateAckSends(s: Stream, e: Event)
    requires e.ClientAck? && ValidateAck(s, e.key, e.offset) == Advance
    requires e.key !in s.table && e.key.1 >= 0 && e.key in e.owned && e.offset < I64_MAX
    ensures e.key in Step(s, e).sent && Step(s, e).sent[e.key] == e.offset + 1
  {
    var p := (e.key, e.offset as int);
    SeededAck(s.table, e.key, e.offset);
    AckOneTable(s, p);
    CommitOf(s, p, e);
    CommitSends(AckOne(s, p).stream.table, e.owned, e.accepted, e.key, e.offset);
    assert TakeIn(s, e) == Proceed(s, [p]);
  }

  /** A filtered record that makes the tracker commits just past itself. */
  lemma FilteredPollSends(s: Stream, d: Decision, owned: set<TopicPartition>)
    requires d.Filter? && d.record.Key() !in s.table && d.record.Key() in owned
    requires Tracked(d.record.Key(), d.record.offset) && d.record.offset < I64_MAX
    ensures var key := d.record.Key(); var r := Step(s, Poll([d], owned, true));
      && r.state.Running? && r.sent.Keys >= {key} && r.sent[key] == d.record.offset + 1
  {
    hide SessionDeliver, SessionAck;
    var key, offset := d.record.Key(), d.record.offset;
    var e, p := Poll([d], owned, true), PointOf(d);
    OneFiltered(s, d);
    SeededPoll(s.table, key, offset);
    var s1 := TakeIn(s, e).stream;
    assert TakeIn(s, e) == Proceed(s1, [p]) && s1.table == SessionDeliver(s.table, key, offset).table;
    AckOneTable(s1, p);
    CommitOf(s1, p, e);
    CommitSends(AckOne(s1, p).stream.table, owned, true, key, offset);
  }

  /** A commit for another partition drops the tracker of one that is not owned and leaves the stream's maps alone. */
  lemma OtherPollRevokes(s: Stream, d: Decision, owned: set<TopicPartition>, key: TopicPartition)
    requires d.Filter? && key !in owned && key != d.record.Key()
    requires d.record.Key() !in s.table && d.record.Key() in owned
    requires Tracked(d.record.Key(), d.record.offset) && d.record.offset < I64_MAX
    ensures var r := Step(s, Poll([d], owned, true)); var e := Poll([d], owned, true);
      && r.state.Running? && Drops(s, e, key)
      && key !in r.state.stream.table
      && (key in s.acknowledged <==> key in r.state.stream.acknowledged)
      && (key in s.delivered ==> key in r.state.stream.delivered && r.state.stream.delivered[key] == s.delivered[key])
  {
    var e, p := Poll([d], owned, true), PointOf(d);
    OneFiltered(s, d);
    SeededPoll(s.table, p.0, p.1);
    var s1 := TakeIn(s, e).stream;
    assert TakeIn(s, e) == Proceed(s1, [p]) && s1.delivered == s.delivered && s1.acknowledged == s.acknowledged;
    AckElsewhere(s1, p, key);
    OneAck(s1, p, e);
    CommitOf(s1, p, e);
    CommitDrops(AckOne(s1, p).stream.table, owned, key);
  }

  lemma AckElsewhere(s: Stream, p: Point, key: TopicPartition)
    requires p.0 != key
    ensures var t := AckOne(s, p).stream;
      && (key in s.acknowledged <==> key in t.acknowledged)
      && (key in s.delivered ==> key in t.delivered && t.delivered[key] == s.delivered[key])
  {
    var r := SessionAck(s.table, p.0, p.1);
    if r.ok && Frontier(r.table, p.0).Some? {
      MarkElsewhere(s.(table := r.table), p.0, Frontier(r.table, p.0).value, key);
    }
  }

  lemma MarkElsewhere(s: Stream, marked: TopicPartition, frontier: int, key: TopicPartition)
    requires marked != key
    ensures var t := Mark(s, marked, frontier);
      && (key in s.acknowledged <==> key in t.acknowledged)
      && (key in s.delivered ==> key in t.delivered && t.delivered[key] == s.delivered[key])
  {
  }

  lemma CommitDrops(table: Table, owned: set<TopicPartition>, key: TopicPartition)
    requires key !in owned
    ensures Commit(table, owned, true).ok && key !in Commit(table, owned, true).table
  {
  }

  // ---------- the runs ----------

  function LostAndFound(last: Event): seq<Event> { [FirstPoll, RevokingPoll, last] }

  lemma RunOfThree(last: Event)
    ensures var events := LostAndFound(last);
      && events[..2] == [FirstPoll, RevokingPoll] && events[..2][..1] == [FirstPoll] && [FirstPoll][..0] == []
      && events[..|events| - 1] == events[..2]
  {
  }

  /** Taking the two records in. */
  lemma TwoDeliveries(ds: seq<Decision>)
    requires ds == FirstPoll.decisions
    ensures RegisterAll(map[], ds).ok && RegisterAll(map[], ds).table.Keys == {Revoked}
    ensures Note(map[], ds) == map[Revoked := {10, 30}] && Filtered(ds) == []
    ensures Seen(ds) == {(Revoked, 10), (Revoked, 30)} && SeenFiltered(ds) == {}
  {
    RegisterTwo(ds, ds[..1]);
    NoteTwo(ds, ds[..1]);
    SeeTwo(ds, ds[..1]);
  }

  lemma NoteTwo(ds: seq<Decision>, one: seq<Decision>)
    requires ds == FirstPoll.decisions && one == ds[..1]
    ensures Note(map[], ds) == map[Revoked := {10, 30}] && Filtered(ds) == []
  {
    assert ds[..|ds| - 1] == one && one[..|one| - 1] == [];
    NoteLast(map[], one);
    NoteLast(map[], ds);
    assert ds[1].record.Key() == Revoked && one[0].record.Key() == Revoked;
    assert {} + {10} == {10} && {10} + {30} == {10, 30};
    assert Filtered(one) == [];
  }

  lemma NoteLast(delivered: Offsets, ds: seq<Decision>)
    requires ds != [] && ds[|ds| - 1].Deliver?
    ensures var before, d := Note(delivered, ds[..|ds| - 1]), ds[|ds| - 1];
      Note(delivered, ds) == before[d.record.Key() := DeliveredOf(before, d.record.Key()) + {d.record.offset}]
  {
  }

  lemma SeeTwo(ds: seq<Decision>, one: seq<Decision>)
    requires ds == FirstPoll.decisions && one == ds[..1]
    ensures Seen(ds) == {(Revoked, 10), (Revoked, 30)} && SeenFiltered(ds) == {}
  {
    assert ds[..|ds| - 1] == one && one[..|one| - 1] == [];
    SeenLast(ds);
    SeenLast(one);
    assert Seen([]) == {};
  }

  lemma RegisterTwo(ds: seq<Decision>, one: seq<Decision>)
    requires ds == FirstPoll.decisions && one == ds[..1]
    ensures RegisterAll(map[], ds).ok && RegisterAll(map[], ds).table.Keys == {Revoked}
  {
    assert ds[..|ds| - 1] == one && one[..|one| - 1] == [];
    assert RegisterAll(map[], []) == TableOutcome(true, map[]);
    SeededPoll(map[], Revoked, 10);
    var first := RegisterAll(map[], one);
    assert first == SessionDeliver(map[], Revoked, 10);
    assert RegisterAll(map[], ds) == SessionDeliver(first.table, Revoked, 30);
    assert |first.table[Revoked].delivered| == 1;
  }

  lemma AfterFirstPoll()
    ensures var r := Run([FirstPoll]);
      && r.state.Running? && r.state.stream.delivered == map[Revoked := {10, 30}]
      && r.state.stream.acknowledged == map[] && r.state.stream.table.Keys == {Revoked}
  {
    TwoDeliveries(FirstPoll.decisions);
    assert [FirstPoll][..0] == [] && Run([]) == StepResult(Running(Start), map[]);
    assert Run([FirstPoll]) == Step(Start, FirstPoll);
  }

  /** The partition is gone from the session and still in the stream's maps. */
  lemma AfterRevocation()
    ensures var before := [FirstPoll, RevokingPoll]; var r := Run(before);
      && r.state.Running? && Revoked !in r.state.stream.table && Revoked !in r.state.stream.acknowledged
      && Revoked in r.state.stream.delivered && r.state.stream.delivered[Revoked] == {10, 30}
      && PeriodOf(before, Revoked) == NewPeriod && PolledInOrder(before, Revoked)
  {
    var before := [FirstPoll, RevokingPoll];
    AfterFirstPoll();
    var s := Run([FirstPoll]).state.stream;
    assert before[..1] == [FirstPoll];
    OtherPollRevokes(s, Filter(At(Other, 0)), {Other}, Revoked);
    assert Run(before) == Step(s, RevokingPoll);
  }

  lemma TenIsPolledOnly(last: Event)
    requires last == LateAck || last == LaterPoll
    ensures (Revoked, 10) in Polled(LostAndFound(last)) && (Revoked, 10) !in Answered(LostAndFound(last))
  {
    hide Polled, Answered, Seen, SeenFiltered;
    TenIsPolledFirst();
    OneFiltered(Start, Filter(At(Revoked, 20)));
    OneMore([FirstPoll, RevokingPoll], last);
    Listed(FirstPoll, RevokingPoll, last);
  }

  lemma Listed<T>(a: T, b: T, c: T)
    ensures [] + [a] == [a] && [a] + [b] == [a, b] && [a, b] + [c] == [a, b, c]
  {
  }

  lemma OneMore(before: seq<Event>, e: Event)
    ensures Polled(before + [e]) == Polled(before) + PolledBy(e) && Answered(before + [e]) == Answered(before) + AnsweredBy(e)
  {
    assert (before + [e])[..|before|] == before;
  }

  lemma TenIsPolledFirst()
    ensures var before := [FirstPoll, RevokingPoll];
      (Revoked, 10) in Polled(before) && (Revoked, 10) !in Answered(before)
  {
    hide Seen, SeenFiltered;
    TwoDeliveries(FirstPoll.decisions);
    OneFiltered(Start, Filter(At(Other, 0)));
    OneMore([], FirstPoll);
    OneMore([FirstPoll], RevokingPoll);
    Listed(FirstPoll, RevokingPoll, LateAck);
  }

  /** The late acknowledgement makes the tracker, and the commit passes offset 10. */
  lemma LateAckLosesARecord()
    ensures var events := LostAndFound(LateAck); var d := PeriodOf(events, Revoked);
      && Revoked in Run(events).sent && Run(events).sent[Revoked] == 31
      && d.history.baseline.Some? && d.late && Seed(d) == 30 && PolledInOrder(events, Revoked)
      && (Revoked, 10) in LeftAtDrop(events, Revoked)
      && !CoversOnlyAnswered(Polled(events), Answered(events), Revoked, Run(events).sent[Revoked])
  {
    var events, before := LostAndFound(LateAck), [FirstPoll, RevokingPoll];
    RunOfThree(LateAck);
    AfterRevocation();
    var s := Run(before).state.stream;
    LateAckSends(s, LateAck);
    assert Run(events) == Step(s, LateAck);
    SentIsCompleted(events, Revoked);
    OneLateAck(s);
    assert PeriodOf(events, Revoked) == AckedOne(NewPeriod, Revoked, (Revoked, 30));
    TenIsPolledOnly(LateAck);
    Passes(events, 30);
  }

  lemma OneLateAck(s: Stream)
    requires TakeIn(s, LateAck).Proceed? && TakeIn(s, LateAck).acks != []
    ensures Acked(Taken(NewPeriod, LateAck, Revoked), Revoked, TakeIn(s, LateAck).acks) == AckedOne(NewPeriod, Revoked, (Revoked, 30))
    ensures AckedOne(NewPeriod, Revoked, (Revoked, 30)) == Period({}, true, History(Some(29), {30}, {30}))
  {
    var acks := TakeIn(s, LateAck).acks;
    assert acks == [(Revoked, 30)] && acks[..0] == [];
    FirstAcknowledgement(NoHistory, 30);
  }

  /** A poll further on makes the tracker, and the commit passes offset 10 with no client acknowledgement at all. */
  lemma LaterPollLosesARecord()
    ensures var events := LostAndFound(LaterPoll); var d := PeriodOf(events, Revoked);
      && Revoked in Run(events).sent && Run(events).sent[Revoked] == 21
      && d.history.baseline.Some? && !d.late && Seed(d) == 20 && d.polled == {20} && PolledInOrder(events, Revoked)
      && (Revoked, 10) in LeftAtDrop(events, Revoked)
      && !CoversOnlyAnswered(Polled(events), Answered(events), Revoked, Run(events).sent[Revoked])
  {
    hide Run, PeriodOf, LeftAtDrop, PolledInOrder, Polled, Answered;
    var events, before := LostAndFound(LaterPoll), [FirstPoll, RevokingPoll];
    AfterRevocation();
    var s := Run(before).state.stream;
    LaterPollSends(s);
    LaterPeriod(s);
    TenIsPolledOnly(LaterPoll);
    Passes(events, 20);
  }

  lemma LaterPollSends(s: Stream)
    requires Run([FirstPoll, RevokingPoll]).state == Running(s) && Revoked !in s.table
    ensures var r := Run(LostAndFound(LaterPoll)); Revoked in r.sent && r.sent[Revoked] == 21
  {
    hide Step;
    RunOfThree(LaterPoll);
    FilteredPollSends(s, Filter(At(Revoked, 20)), {Revoked});
    assert Run(LostAndFound(LaterPoll)) == Step(s, LaterPoll);
  }

  /** The period of the second run. */
  lemma LaterPeriod(s: Stream)
    requires Run([FirstPoll, RevokingPoll]).state == Running(s) && PeriodOf([FirstPoll, RevokingPoll], Revoked) == NewPeriod
    requires PolledInOrder([FirstPoll, RevokingPoll], Revoked) && Revoked in Run(LostAndFound(LaterPoll)).sent
    ensures PeriodOf(LostAndFound(LaterPoll), Revoked) == Period({20}, false, History(Some(19), {20}, {20}))
    ensures PolledInOrder(LostAndFound(LaterPoll), Revoked)
  {
    hide Step, Acked, Taken;
    RunOfThree(LaterPoll);
    SentIsCompleted(LostAndFound(LaterPoll), Revoked);
    OneLaterPoll(s);
    assert OffsetsOf(RecordsOf(LaterPoll.decisions)[..0], Revoked) == {};
  }

  /** Offset 10 was left by the drop and lies below the seed. */
  lemma Passes(events: seq<Event>, seed: int)
    requires PolledInOrder(events, Revoked) && Revoked in Run(events).sent && seed >= 10
    requires var d := PeriodOf(events, Revoked); d.history.baseline == Some(seed - 1) && 10 !in d.polled
    requires (Revoked, 10) in Polled(events) && (Revoked, 10) !in Answered(events)
    ensures (Revoked, 10) in LeftAtDrop(events, Revoked)
    ensures !CoversOnlyAnswered(Polled(events), Answered(events), Revoked, Run(events).sent[Revoked])
  {
    hide Run, PeriodOf, LeftAtDrop, PolledInOrder, Polled, Answered;
    CommitsPassExactly(events, Revoked, (Revoked, 10));
  }

  lemma OneLaterPoll(s: Stream)
    requires TakeIn(s, LaterPoll).Proceed?
    ensures Acked(Taken(NewPeriod, LaterPoll, Revoked), Revoked, TakeIn(s, LaterPoll).acks) ==
            Period({20}, false, History(Some(19), {20}, {20}))
  {
    var ds := LaterPoll.decisions;
    var taken := Taken(NewPeriod, LaterPoll, Revoked);
    assert ds[..0] == [] && PointOf(ds[0]) == (Revoked, 20);
    assert Register(NewPeriod, Revoked, []) == NewPeriod && ds[..|ds| - 1] == [];
    FirstAdmission(NoHistory, 20);
    assert {} + {20} == {20};
    assert taken == Period({20}, false, History(Some(19), {20}, {}));
    OneFiltered(s, Filter(At(Revoked, 20)));
    var acks := TakeIn(s, LaterPoll).acks;
    assert acks == [(Revoked, 20)] && acks[..0] == [];
    assert Settled(taken.history) == {};
  }

  // ---------- an accepted acknowledgement that stops the stream ----------

  const UnknownAck: Event := ClientAck(Revoked, 30, {Revoked}, true)

  lemma ThirtyIsEmitted()
    ensures (Revoked, 30) in Emitted(LostAndFound(LaterPoll))
  {
    hide EmittedBy;
    RunOfThree(LaterPoll);
    var events := LostAndFound(LaterPoll);
    FirstPollEmits();
    assert Emitted([FirstPoll]) == Emitted([]) + EmittedBy(FirstPoll);
    assert (Revoked, 30) in Emitted(events[..2]);
  }

  lemma FirstPollEmits()
    ensures (Revoked, 30) in EmittedBy(FirstPoll)
  {
    var ds := FirstPoll.decisions;
    assert ds[1].Deliver? && PointOf(ds[1]) == (Revoked, 30);
  }

  /** Nothing was acknowledged in the partition before it was lost. */
  lemma NothingReachedBefore(f: int)
    ensures !Reaches([FirstPoll], Revoked, f) && !Reaches([FirstPoll, RevokingPoll], Revoked, f)
  {
    assert [FirstPoll][..0] == [] && [FirstPoll, RevokingPoll][..1] == [FirstPoll];
    TwoDeliveries(FirstPoll.decisions);
    OneFiltered(Start, Filter(At(Other, 0)));
  }

  lemma BeganAtRevocation()
    ensures Began(LostAndFound(LaterPoll), Revoked) <= 2
  {
    hide Run, Drops;
    AfterRevocation();
    LaterPollSends(Run([FirstPoll, RevokingPoll]).state.stream);
    SentIsCompleted(LostAndFound(LaterPoll), Revoked);
    RunOfThree(LaterPoll);
  }

  lemma ThirtyIsNotSettledBefore()
    ensures !SettledBefore(LostAndFound(LaterPoll), Revoked, 30)
  {
    hide Reaches, Began;
    var events := LostAndFound(LaterPoll);
    BeganAtRevocation();
    RunOfThree(LaterPoll);
    forall i, f | 0 < i <= Began(events, Revoked) ensures !Reaches(events[..i], Revoked, f) {
      assert events[..1] == [FirstPoll];
      NothingReachedBefore(f);
    }
  }

  lemma LaterPollRuns(s: Stream)
    requires Run([FirstPoll, RevokingPoll]).state == Running(s) && Revoked !in s.table
    ensures Run(LostAndFound(LaterPoll)).state.Running?
  {
    hide Step;
    RunOfThree(LaterPoll);
    FilteredPollSends(s, Filter(At(Revoked, 20)), {Revoked});
    assert Run(LostAndFound(LaterPoll)) == Step(s, LaterPoll);
  }

  /**
   The poll further on makes a tracker that does not know offset 30, while the stream still holds
   it: its acknowledgement is accepted and stops the stream.
   */
  lemma AcceptedAckStopsTheStream()
    ensures var events := LostAndFound(LaterPoll); var r := Run(events);
      && r.state.Running? && ValidateAck(r.state.stream, Revoked, 30) == Advance
      && Run(events + [UnknownAck]).state == Stopped(AckUntracked)
  {
    hide Run, PeriodOf, LostAndFound, Emitted, SettledBefore, Remembered, PolledInOrder;
    var events := LostAndFound(LaterPoll);
    AfterRevocation();
    var s := Run([FirstPoll, RevokingPoll]).state.stream;
    LaterPollRuns(s);
    LaterPollSends(s);
    LaterPeriod(s);
    var all := events + [UnknownAck];
    assert all[..|all| - 1] == events && all[|all| - 1] == UnknownAck;
    assert Settled(History(Some(19), {20}, {20})) == {20};
    DismissedExactly(all);
    ThirtyIsNotSettledBefore();
    ThirtyIsEmitted();
    EmittedIsRemembered(events, (Revoked, 30));
    RememberedIsAccepted(Run(events).state.stream);
    AcceptedAckFailsExactly(all);
  }

  lemma RememberedIsAccepted(s: Stream)
    requires Remembered(s, (Revoked, 30)) && ValidateAck(s, Revoked, 30) != Duplicate
    ensures ValidateAck(s, Revoked, 30) == Advance
  {
  }

  // ---------- an acknowledgement dismissed for ever ----------

  function DeliverTo(r: Record): Event { Poll([Decision.Deliver(r)], {r.Key()}, true) }

  /** Poll a record, lose the partition at its acknowledgement, and poll the record again. */
  function Repolled(r: Record): seq<Event> { [DeliverTo(r), ClientAck(r.Key(), r.offset, {}, true), DeliverTo(r)] }

  lemma NoteNothing(delivered: Offsets)
    ensures Note(delivered, []) == delivered
  {
  }

  lemma OneDelivered(s: Stream, r: Record)
    requires r.Key() !in s.table && Tracked(r.Key(), r.offset)
    ensures Step(s, DeliverTo(r)) == StepResult(Running(Stream(
      s.table[r.Key() := Tracker(Some(r.offset - 1), {r.offset as int}, {}, Some(r.offset - 1))],
      s.delivered[r.Key() := DeliveredOf(s.delivered, r.Key()) + {r.offset as int}], s.acknowledged)), map[])
  {
    var ds := [Decision.Deliver(r)];
    assert ds[..0] == [];
    SeededPoll(s.table, r.Key(), r.offset);
    assert RegisterAll(s.table, ds) == SessionDeliver(s.table, r.Key(), r.offset);
    assert Filtered(ds) == [];
    NoteNothing(s.delivered);
    NoteLast(s.delivered, ds);
    var s1 := TakeIn(s, DeliverTo(r)).stream;
    assert TakeIn(s, DeliverTo(r)) == Proceed(s1, []) && AckAll(s1, []) == Subscribe.Acknowledged(true, s1);
  }

  /** The acknowledgement settles the record and, at the same commit, loses the tracker. */
  lemma AckedAndLost(s: Stream, r: Record)
    requires Tracked(r.Key(), r.offset) && s.acknowledged == map[] && s.delivered == map[r.Key() := {r.offset as int}]
    requires s.table == map[r.Key() := Tracker(Some(r.offset - 1), {r.offset as int}, {}, Some(r.offset - 1))]
    ensures Step(s, ClientAck(r.Key(), r.offset, {}, true)) ==
            StepResult(Running(Stream(map[], map[], map[r.Key() := r.offset as int])), map[])
  {
    var key, offset := r.Key(), r.offset as int;
    var p, e := (key, offset), ClientAck(key, r.offset, {}, true);
    var seeded := map[][key := Tracker(Some(offset - 1), {offset}, {}, Some(offset - 1))];
    SeededPoll(map[], key, offset);
    assert s.table == seeded;
    assert Above({offset}, offset) == {};
    OneAck(s, p, e);
    var a := AckOne(s, p);
    assert a.ok && a.stream.delivered == map[] && a.stream.acknowledged == map[key := offset];
    assert Retained(a.stream.table, {}) == map[];
    assert AckedOffsets(map[]) == map[];
  }

  lemma PrefixesRun(r: Record)
    requires Tracked(r.Key(), r.offset)
    ensures var events := Repolled(r); var o := r.offset as int;
      && Run(events[..1]).state == Running(Stream(map[r.Key() := Tracker(Some(o - 1), {o}, {}, Some(o - 1))], map[r.Key() := {o}], map[]))
      && Run(events[..2]).state == Running(Stream(map[], map[], map[r.Key() := o]))
  {
    hide Step;
    var events := Repolled(r);
    assert events[..2][..1] == events[..1] && events[..1][..0] == [];
    assert {} + {r.offset as int} == {r.offset as int};
    OneDelivered(Start, r);
    assert Run(events[..1]) == Step(Start, events[0]);
    AckedAndLost(Run(events[..1]).state.stream, r);
  }

  lemma AfterRepolled(r: Record)
    requires Tracked(r.Key(), r.offset)
    ensures Run(Repolled(r)) == StepResult(Running(Stream(
      map[r.Key() := Tracker(Some(r.offset - 1), {r.offset as int}, {}, Some(r.offset - 1))],
      map[r.Key() := {r.offset as int}], map[r.Key() := r.offset as int])), map[])
  {
    hide Step;
    var events := Repolled(r);
    PrefixesRun(r);
    assert {} + {r.offset as int} == {r.offset as int};
    OneDelivered(Run(events[..2]).state.stream, r);
  }

  /**
   Then every acknowledgement of the record is dismissed, whatever is owned: nothing changes and
   nothing is sent, with the record polled, acknowledged since and still outstanding.
   */
  lemma RepolledAckIsDismissed(r: Record, owned: set<TopicPartition>, accepted: bool)
    requires Tracked(r.Key(), r.offset)
    ensures Run(Repolled(r)).state.Running?
    ensures var s := Run(Repolled(r)).state.stream; var e := ClientAck(r.Key(), r.offset, owned, accepted);
      && r.Key() in s.table && r.offset as int in s.table[r.Key()].delivered
      && ValidateAck(s, r.Key(), r.offset) == Duplicate
      && Step(s, e) == StepResult(Running(s), map[])
      && SettledBefore(Repolled(r), r.Key(), r.offset)
  {
    hide Run, PeriodOf, SettledBefore, Repolled;
    AfterRepolled(r);
    var events, e := Repolled(r), ClientAck(r.Key(), r.offset, owned, accepted);
    var s, all := Run(events).state.stream, events + [e];
    assert all[..|all| - 1] == events && all[|all| - 1] == e;
    TrackerFollowsPeriod(events, r.Key());
    FrontierFollows(s.table, PeriodOf(events, r.Key()), r.Key());
    DismissedExactly(all);
    assert AckAll(s, []) == Subscribe.Acknowledged(true, s);
  }

  lemma RepolledPeriod(r: Record, owned: set<TopicPartition>, accepted: bool)
    requires Tracked(r.Key(), r.offset)
    ensures var events := Repolled(r) + [ClientAck(r.Key(), r.offset, owned, accepted)]; var o := r.offset as int;
      && PeriodOf(events, r.Key()) == Period({o}, false, History(Some(o - 1), {o}, {}))
      && Began(events, r.Key()) == 2 && Completed(events)
  {
    hide Step, Register;
    var key, o, events := r.Key(), r.offset as int, Repolled(r);
    var e := ClientAck(key, r.offset, owned, accepted);
    var all := events + [e];
    assert all[..3] == events && events[..2][..1] == events[..1] && events[..1][..0] == [];
    PrefixesRun(r);
    RepolledAckIsDismissed(r, owned, accepted);
    var s1, s2, s3 := Run(events[..1]).state.stream, Run(events[..2]).state.stream, Run(events).state.stream;
    AckDrops(s1, r);
    assert PeriodOf(events[..2], key) == NewPeriod && Began(events[..2], key) == 2;
    DeliversOnly(s2, r);
    assert PeriodOf(events, key) == Taken(NewPeriod, DeliverTo(r), key);
    OneRegistered(r);
    assert TakeIn(s3, e) == Proceed(s3, []) && AckAll(s3, []) == Subscribe.Acknowledged(true, s3);
  }

  lemma AckDrops(s: Stream, r: Record)
    requires Tracked(r.Key(), r.offset) && s.acknowledged == map[] && s.delivered == map[r.Key() := {r.offset as int}]
    requires s.table == map[r.Key() := Tracker(Some(r.offset - 1), {r.offset as int}, {}, Some(r.offset - 1))]
    ensures Drops(s, ClientAck(r.Key(), r.offset, {}, true), r.Key())
  {
    var p, e := (r.Key(), r.offset as int), ClientAck(r.Key(), r.offset, {}, true);
    SeededPoll(map[], p.0, p.1);
    OneAck(s, p, e);
    AckOneOk(s, p);
    assert s.table == map[][p.0 := Tracker(Some(p.1 - 1), {p.1}, {}, Some(p.1 - 1))];
    assert TakeIn(s, e) == Proceed(s, [p]);
  }

  lemma DeliversOnly(s: Stream, r: Record)
    requires r.Key() !in s.table && Tracked(r.Key(), r.offset)
    ensures TakeIn(s, DeliverTo(r)).Proceed? && TakeIn(s, DeliverTo(r)).acks == []
  {
    var ds := [Decision.Deliver(r)];
    assert ds[..0] == [];
    SeededPoll(s.table, r.Key(), r.offset);
    assert RegisterAll(s.table, ds) == SessionDeliver(s.table, r.Key(), r.offset);
    assert Filtered(ds) == [];
  }

  lemma OneRegistered(r: Record)
    requires Tracked(r.Key(), r.offset)
    ensures var o := r.offset as int;
      Taken(NewPeriod, DeliverTo(r), r.Key()) == Period({o}, false, History(Some(o - 1), {o}, {}))
  {
    var ds := [Decision.Deliver(r)];
    assert ds[..0] == [] && Register(NewPeriod, r.Key(), []) == NewPeriod;
    FirstAdmission(NoHistory, r.offset);
    assert {} + {r.offset as int} == {r.offset as int};
  }

  /** So the frontier is not exact: it waits for a record that has been acknowledged since it was polled. */
  lemma RepolledFrontierIsNotExact(r: Record, owned: set<TopicPartition>, accepted: bool)
    requires Tracked(r.Key(), r.offset)
    ensures var events := Repolled(r) + [ClientAck(r.Key(), r.offset, owned, accepted)]; var d := PeriodOf(events, r.Key());
      && d.history.baseline.Some? && SettledFrontier(d.history) == Some(r.offset - 1)
      && !IsExact(d, r.Key(), AnsweredSince(events, r.Key()), r.offset - 1)
  {
    hide PeriodOf, Began;
    var e := ClientAck(r.Key(), r.offset, owned, accepted);
    var events, o := Repolled(r) + [e], r.offset as int;
    RepolledPeriod(r, owned, accepted);
    assert Settled(History(Some(o - 1), {o}, {})) == {};
    assert events[2..] == [DeliverTo(r), e];
    OneMore([DeliverTo(r)], e);
    assert [DeliverTo(r)] + [e] == [DeliverTo(r), e];
    assert (r.Key(), o) in AnsweredSince(events, r.Key());
    assert o in PeriodOf(events, r.Key()).polled;
  }
}
