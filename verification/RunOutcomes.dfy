/** What a run commits, and what stops it (consume.rs, streaming.rs). */
module RunOutcomes {
  import opened Wrappers
  import opened Records
  import opened AckFrontier
  import opened Subscribe
  import opened OwnershipPeriods
  import opened Dismissals

  // ---------- what the tracker remembers as committed ----------

  /** The offset last sent for `key` in its period and accepted by the broker. */
  ghost function LastSent(events: seq<Event>, key: TopicPartition): Option<int> {
    if events == [] then None
    else
      var init, e := events[..|events| - 1], events[|events| - 1];
      if Run(init).state.Running? && Drops(Run(init).state.stream, e, key) then None
      else if key in Run(events).sent && e.accepted then Some(Run(events).sent[key])
      else LastSent(init, key)
  }

  /** The frontier a tracker has committed: one below the last offset sent, or what it was made with. */
  ghost predicate CommittedAt(table: Table, d: Period, key: TopicPartition, last: Option<int>) {
    && (last.Some? ==> key in table)
    && (key in table ==> table[key].committed == if last.Some? then Some(last.value - 1) else d.history.baseline)
  }

  lemma DeliverRemembers(table: Table, d: Period, key: TopicPartition, p: Point, last: Option<int>)
    requires ValidTable(table) && Follows(table, d, key) && p.1 <= I64_MAX && SessionDeliver(table, p.0, p.1).ok
    requires CommittedAt(table, d, key, last)
    ensures CommittedAt(SessionDeliver(table, p.0, p.1).table,
                      if p.0 == key && Tracked(key, p.1) then d.(history := Admit(d.history, p.1).history) else d, key, last)
  {
    if p.0 == key && Tracked(key, p.1) {
      if d.history.baseline.Some? { BaselineStays(d.history, p.1); } else { FirstAdmission(d.history, p.1); }
    }
  }

  lemma {:induction false} RegisterRemembers(table: Table, d: Period, key: TopicPartition, decisions: seq<Decision>, last: Option<int>)
    requires ValidTable(table) && Follows(table, d, key) && RegisterAll(table, decisions).ok && CommittedAt(table, d, key, last)
    ensures CommittedAt(RegisterAll(table, decisions).table, Register(d, key, decisions), key, last)
  {
    hide Follows, SessionDeliver, ValidTable;
    if decisions != [] {
      var init := decisions[..|decisions| - 1];
      RegisterRemembers(table, d, key, init, last);
      RegisterFollows(table, d, key, init);
      RegisterKeepsValid(table, init);
      DeliverRemembers(RegisterAll(table, init).table, Register(d, key, init), key, PointOf(decisions[|decisions| - 1]), last);
    }
  }

  lemma AckRemembers(s: Stream, d: Period, key: TopicPartition, p: Point, last: Option<int>)
    requires ValidTable(s.table) && Follows(s.table, d, key) && p.1 <= I64_MAX && CommittedAt(s.table, d, key, last)
    ensures CommittedAt(AckOne(s, p).stream.table, AckedOne(d, key, p), key, last)
  {
    AckOneTable(s, p);
    if p.0 == key && Tracked(key, p.1) {
      if key in s.table {
        BaselineStays(d.history, p.1);
      } else {
        SeededAck(s.table, key, p.1);
        FirstAcknowledgement(d.history, p.1);
      }
    }
  }

  lemma {:induction false} AcksRemember(s: Stream, d: Period, key: TopicPartition, acks: seq<Point>, last: Option<int>)
    requires ValidTable(s.table) && Follows(s.table, d, key) && AckAll(s, acks).ok && CommittedAt(s.table, d, key, last)
    requires forall i | 0 <= i < |acks| :: acks[i].1 <= I64_MAX
    ensures CommittedAt(AckAll(s, acks).stream.table, Acked(d, key, acks), key, last)
  {
    hide Follows, AckOne, AckedOne, CommittedAt, ValidTable;
    if acks != [] {
      var init := acks[..|acks| - 1];
      AcksRemember(s, d, key, init, last);
      AcksFollow(s, d, key, init);
      AckAllAgrees(s, init, key);
      AckRemembers(AckAll(s, init).stream, Acked(d, key, init), key, acks[|acks| - 1], last);
    }
  }

  /** The table an iteration is about to commit remembers what was committed before it. */
  lemma ReadyRemembers(s: Stream, d: Period, e: Event, key: TopicPartition, polled: set<Point>, last: Option<int>)
    requires Sound(s, key, polled) && Follows(s.table, d, key) && CommittedAt(s.table, d, key, last)
    requires TakeIn(s, e).Proceed? && AckAll(TakeIn(s, e).stream, TakeIn(s, e).acks).ok
    ensures CommittedAt(Ready(s, e), Acked(Taken(d, e, key), key, TakeIn(s, e).acks), key, last)
  {
    hide Follows, CommittedAt, Acked, AckAll;
    TakeInKeeps(s, e, key, polled);
    AcksAreInRange(s, e);
    TakenFollows(s, d, e, key);
    if e.Poll? { RegisterRemembers(s.table, d, key, e.decisions, last); }
    AcksRemember(TakeIn(s, e).stream, Taken(d, e, key), key, TakeIn(s, e).acks, last);
  }

  lemma StepRemembersSent(s: Stream, d: Period, e: Event, key: TopicPartition, polled: set<Point>, last: Option<int>)
    requires Sound(s, key, polled) && Follows(s.table, d, key) && CommittedAt(s.table, d, key, last)
    requires Step(s, e).state.Running?
    ensures CommittedAt(Step(s, e).state.stream.table, NextPeriod(s, d, e, key), key,
                      if Drops(s, e, key) then None else if key in Step(s, e).sent then Some(Step(s, e).sent[key]) else last)
  {
    hide Follows, Acked, Taken, AckAll, Commit;
    ReadyRemembers(s, d, e, key, polled, last);
    BeforeCommit(s, e, key, polled);
    CommitKeeps(Ready(s, e), e.owned, e.accepted, key);
    CommitIsExact(Ready(s, e), e.owned, e.accepted, key);
  }

  lemma RunningIsAccepted(s: Stream, e: Event, key: TopicPartition, polled: set<Point>)
    requires Sound(s, key, polled) && Step(s, e).state.Running? && key in Step(s, e).sent
    ensures e.accepted
  {
    hide Commit;
    BeforeCommit(s, e, key, polled);
    CommitIsExact(Ready(s, e), e.owned, e.accepted, key);
  }

  /**
   In every run, a tracker's committed frontier is one below the offset last sent in its period
   and accepted, or, before there is one, just below the offset the tracker was made for.
   */
  lemma {:induction false} CommittedIsLastSent(events: seq<Event>, key: TopicPartition)
    requires Run(events).state.Running?
    ensures CommittedAt(Run(events).state.stream.table, PeriodOf(events, key), key, LastSent(events, key))
  {
    hide Step, NextPeriod, CommittedAt, Follows, Drops;
    if events == [] {
      NothingRemembered(key);
    } else {
      var init, e := events[..|events| - 1], events[|events| - 1];
      CommittedIsLastSent(init, key);
      RunKeeps(init, key);
      TrackerFollowsPeriod(init, key);
      StepRemembersSent(Run(init).state.stream, PeriodOf(init, key), e, key, Polled(init), LastSent(init, key));
      if key in Run(events).sent { RunningIsAccepted(Run(init).state.stream, e, key, Polled(init)); }
    }
  }

  lemma NothingRemembered(key: TopicPartition)
    ensures CommittedAt(Start.table, NewPeriod, key, None)
  {
  }

  // ---------- what is sent, and what stops the stream ----------

  /** What `key` has committed when the last iteration begins: nothing yet, in a period without a tracker. */
  ghost function CommittedBefore(events: seq<Event>, key: TopicPartition): Option<int>
    requires events != [] && Completed(events)
  {
    var last := LastSent(events[..|events| - 1], key);
    if last.Some? then Some(last.value - 1) else Closing(events, key).history.baseline
  }

  /** What an iteration sends, from what its partition has settled and what it has committed. */
  lemma StepSendsExactly(s: Stream, d: Period, e: Event, key: TopicPartition, polled: set<Point>, last: Option<int>)
    requires Sound(s, key, polled) && Follows(s.table, d, key) && CommittedAt(s.table, d, key, last)
    requires TakeIn(s, e).Proceed? && AckAll(TakeIn(s, e).stream, TakeIn(s, e).acks).ok
    ensures var h := Acked(Taken(d, e, key), key, TakeIn(s, e).acks).history; var f := SettledFrontier(h);
      && (key in Step(s, e).sent <==>
            && TakeIn(s, e).acks != [] && key in e.owned && f.Some? && f.value < I64_MAX
            && f != if last.Some? then Some(last.value - 1) else h.baseline)
      && (key in Step(s, e).sent ==> Step(s, e).sent[key] == f.value + 1)
  {
    hide Follows, Acked, Taken, Commit, AckAll, SettledFrontier;
    var d' := Acked(Taken(d, e, key), key, TakeIn(s, e).acks);
    ReadyRemembers(s, d, e, key, polled, last);
    ReadyFollows(s, d, e, key, polled);
    FrontierFollows(Ready(s, e), d', key);
    BeforeCommit(s, e, key, polled);
    CommitKeeps(Ready(s, e), e.owned, e.accepted, key);
    CommitIsExact(Ready(s, e), e.owned, e.accepted, key);
  }

  lemma RunLast(events: seq<Event>)
    requires events != [] && Run(events[..|events| - 1]).state.Running?
    ensures Run(events) == Step(Run(events[..|events| - 1]).state.stream, events[|events| - 1])
  {
    hide Step;
  }

  /**
   The iteration acknowledged something, owns the partition, and has settled it past what it has
   committed, up to an offset with a successor.
   */
  ghost predicate Due(events: seq<Event>, key: TopicPartition)
    requires events != [] && Completed(events)
  {
    var init, e := events[..|events| - 1], events[|events| - 1];
    var f := SettledFrontier(Closing(events, key).history);
    && TakeIn(Run(init).state.stream, e).acks != [] && key in e.owned
    && f.Some? && f.value < I64_MAX && f != CommittedBefore(events, key)
  }

  lemma DueIsSent(events: seq<Event>, key: TopicPartition)
    requires events != [] && Completed(events)
    ensures key in Run(events).sent <==> Due(events, key)
    ensures key in Run(events).sent ==> Run(events).sent[key] == SettledFrontier(Closing(events, key).history).value + 1
  {
    hide Run, Follows, Acked, Taken, Step, AckAll, PeriodOf, LastSent, SettledFrontier, CommittedAt, Sound, TakeIn;
    RunLast(events);
    var init, e := events[..|events| - 1], events[|events| - 1];
    RunKeeps(init, key);
    TrackerFollowsPeriod(init, key);
    CommittedIsLastSent(init, key);
    StepSendsExactly(Run(init).state.stream, PeriodOf(init, key), e, key, Polled(init), LastSent(init, key));
  }

  /**
   In every run an iteration sends an offset for `key` exactly when it acknowledged something,
   owns the partition, and the partition's settled frontier is past what it has committed (and
   has a successor). What it sends is that frontier plus one.
   */
  lemma SentExactly(events: seq<Event>, key: TopicPartition)
    requires events != [] && Run(events[..|events| - 1]).state.Running?
    ensures key in Run(events).sent <==> Completed(events) && Due(events, key)
    ensures key in Run(events).sent ==> Run(events).sent[key] == SettledFrontier(Closing(events, key).history).value + 1
  {
    hide Run, Due, Closing, SettledFrontier, Completed;
    if key in Run(events).sent { SentIsCompleted(events, key); }
    if Completed(events) { DueIsSent(events, key); }
  }

  lemma StepFailsExactly(s: Stream, e: Event, key: TopicPartition, polled: set<Point>)
    requires Sound(s, key, polled)
    ensures Step(s, e).state == Stopped(CommitFailed) <==> Step(s, e).sent != map[] && !e.accepted
  {
    hide Commit, AckAll, RegisterAll, ValidateAck, Note, Filtered, Sound;
    if Commits(s, e) {
      BeforeCommit(s, e, key, polled);
      CommitIsExact(Ready(s, e), e.owned, e.accepted, key);
    }
  }

  /** A stream stops because a commit failed exactly when it sent something that the broker refused. */
  lemma CommitFailsExactly(events: seq<Event>)
    requires events != [] && Run(events[..|events| - 1]).state.Running?
    ensures Run(events).state == Stopped(CommitFailed) <==> Run(events).sent != map[] && !events[|events| - 1].accepted
  {
    hide Step, Sound;
    var init, e := events[..|events| - 1], events[|events| - 1];
    RunKeeps(init, ("", 0));
    StepFailsExactly(Run(init).state.stream, e, ("", 0), Polled(init));
  }

  // ---------- refused acknowledgements ----------

  lemma {:induction false} NotedIsEmitted(delivered: Offsets, decisions: seq<Decision>, p: Point)
    requires p.1 in DeliveredOf(Note(delivered, decisions), p.0)
    ensures || p.1 in DeliveredOf(delivered, p.0)
            || exists i | 0 <= i < |decisions| :: decisions[i].Deliver? && PointOf(decisions[i]) == p
  {
    if decisions != [] {
      var init := decisions[..|decisions| - 1];
      if p.1 in DeliveredOf(Note(delivered, init), p.0) {
        NotedIsEmitted(delivered, init, p);
        if p.1 !in DeliveredOf(delivered, p.0) {
          var i :| 0 <= i < |init| && init[i].Deliver? && PointOf(init[i]) == p;
          assert decisions[i].Deliver? && PointOf(decisions[i]) == p;
        }
      } else {
        assert decisions[|decisions| - 1].Deliver? && PointOf(decisions[|decisions| - 1]) == p;
      }
    }
  }

  lemma StepNotesEmitted(s: Stream, e: Event, p: Point, polled: set<Point>)
    requires Sound(s, p.0, polled) && Step(s, e).state.Running?
    requires p.1 in DeliveredOf(Step(s, e).state.stream.delivered, p.0)
    ensures p.1 in DeliveredOf(s.delivered, p.0) || p in EmittedBy(e)
  {
    hide AckAll, Commit, ValidTable, Note;
    TakeInKeeps(s, e, p.0, polled);
    AcksAreInRange(s, e);
    AckAllAgrees(TakeIn(s, e).stream, TakeIn(s, e).acks, p.0);
    if e.Poll? { NotedIsEmitted(s.delivered, e.decisions, p); }
  }

  /** The delivered map holds records that went to the client, and no others. */
  lemma {:induction false} DeliveredIsEmitted(events: seq<Event>, p: Point)
    requires Run(events).state.Running? && p.1 in DeliveredOf(Run(events).state.stream.delivered, p.0)
    ensures p in Emitted(events)
  {
    hide Step, EmittedBy, Sound;
    if events != [] {
      var init := events[..|events| - 1];
      RunKeeps(init, p.0);
      StepNotesEmitted(Run(init).state.stream, events[|events| - 1], p, Polled(init));
      if p.1 in DeliveredOf(Run(init).state.stream.delivered, p.0) { DeliveredIsEmitted(init, p); }
    }
  }

  /** Some iteration of the run has settled the partition up to `offset` or past it. */
  ghost predicate EverSettled(events: seq<Event>, key: TopicPartition, offset: int) {
    exists i, f | 0 < i <= |events| && Reaches(events[..i], key, f) :: offset <= f
  }

  lemma HighWaterIsEverSettled(events: seq<Event>, key: TopicPartition, offset: int)
    requires Run(events).state.Running?
    ensures var high := HighWater(Run(events).state.stream, key);
      high.Some? && offset <= high.value <==> EverSettled(events, key, offset)
  {
    hide Reaches;
    AcknowledgedIsHighest(events, key);
  }

  lemma StepRejects(s: Stream, e: Event)
    ensures Step(s, e).state == Stopped(AckRejected) <==> e.ClientAck? && ValidateAck(s, e.key, e.offset) == NotDelivered
  {
    hide AckAll, Commit, RegisterAll, ValidateAck, Note, Filtered;
  }

  /** When `validate_ack` knows nothing of a record. */
  lemma UnknownExactly(events: seq<Event>, key: TopicPartition, offset: I64)
    requires Run(events).state.Running?
    ensures ValidateAck(Run(events).state.stream, key, offset) == NotDelivered <==>
      !EverSettled(events, key, offset) && (offset < 0 || (key, offset as int) !in Emitted(events))
  {
    hide EverSettled, Emitted, Run;
    var p, s := (key, offset as int), Run(events).state.stream;
    HighWaterIsEverSettled(events, key, offset);
    if p in Emitted(events) { EmittedIsRemembered(events, p); }
    if p.1 in DeliveredOf(s.delivered, p.0) { DeliveredIsEmitted(events, p); }
  }

  /**
   A client's acknowledgement stops the stream as unknown exactly when its record never went to
   the client and nothing the stream has settled reaches it.
   */
  lemma AckRejectedExactly(events: seq<Event>)
    requires events != [] && Run(events[..|events| - 1]).state.Running?
    ensures var init, e := events[..|events| - 1], events[|events| - 1];
      Run(events).state == Stopped(AckRejected) <==>
      (&& e.ClientAck? && !EverSettled(init, e.key, e.offset)
       && (e.offset < 0 || (e.key, e.offset as int) !in Emitted(init)))
  {
    hide EverSettled, Emitted, Step, ValidateAck;
    var init, e := events[..|events| - 1], events[|events| - 1];
    StepRejects(Run(init).state.stream, e);
    if e.ClientAck? { UnknownExactly(init, e.key, e.offset); }
  }

  // ---------- too many records outstanding ----------

  /** Record `j` of the batch is over the partition's cap once the records before it are in. */
  ghost predicate OverCap(init: seq<Event>, decisions: seq<Decision>, j: nat)
    requires j < |decisions|
  {
    var (key, offset) := PointOf(decisions[j]);
    var h := Register(PeriodOf(init, key), key, decisions[..j]).history;
    && Tracked(key, offset) && offset !in h.admitted
    && (h.baseline.Some? ==> offset > SettledFrontier(h).value)
    && |h.admitted - Settled(h)| >= MAX_OUTSTANDING_PER_PARTITION
  }

  lemma DeliverRefusedExactly(table: Table, d: Period, p: Point)
    requires ValidTable(table) && Follows(table, d, p.0) && p.1 <= I64_MAX
    ensures SessionDeliver(table, p.0, p.1).ok <==> !Tracked(p.0, p.1) || Admit(d.history, p.1).ok
  {
    if Tracked(p.0, p.1) { AdmitRefines(TrackerOf(table, p.0), d.history, p.1); }
  }

  lemma LastFailsExactly(init: seq<Event>, decisions: seq<Decision>)
    requires Run(init).state.Running? && decisions != []
    requires RegisterAll(Run(init).state.stream.table, decisions[..|decisions| - 1]).ok
    ensures RegisterAll(Run(init).state.stream.table, decisions).ok <==> !OverCap(init, decisions, |decisions| - 1)
  {
    hide Follows, SessionDeliver, ValidTable, PeriodOf, Register, Run, SettledFrontier, Settled;
    var before, p := decisions[..|decisions| - 1], PointOf(decisions[|decisions| - 1]);
    var table := Run(init).state.stream.table;
    RunKeeps(init, p.0);
    TrackerFollowsPeriod(init, p.0);
    RegisterKeepsValid(table, before);
    RegisterFollows(table, PeriodOf(init, p.0), p.0, before);
    RegisteredBaseline(RegisterAll(table, before).table, Register(PeriodOf(init, p.0), p.0, before), p.0);
    DeliverRefusedExactly(RegisterAll(table, before).table, Register(PeriodOf(init, p.0), p.0, before), p);
  }

  lemma RegisteredBaseline(table: Table, d: Period, key: TopicPartition)
    requires Follows(table, d, key)
    ensures SettledFrontier(d.history).Some? <==> d.history.baseline.Some?
  {
  }

  lemma {:induction false} RegisterFailsExactly(init: seq<Event>, decisions: seq<Decision>)
    requires Run(init).state.Running?
    ensures RegisterAll(Run(init).state.stream.table, decisions).ok <==>
            forall j | 0 <= j < |decisions| :: !OverCap(init, decisions, j)
  {
    hide OverCap, SessionDeliver, Run;
    if decisions != [] {
      var n := |decisions| - 1;
      RegisterFailsExactly(init, decisions[..n]);
      forall j | 0 <= j < n ensures OverCap(init, decisions[..n], j) == OverCap(init, decisions, j) {
        OverCapInPrefix(init, decisions, n, j);
      }
      if RegisterAll(Run(init).state.stream.table, decisions[..n]).ok { LastFailsExactly(init, decisions); }
    }
  }

  lemma OverCapInPrefix(init: seq<Event>, decisions: seq<Decision>, n: nat, j: nat)
    requires j < n <= |decisions|
    ensures OverCap(init, decisions[..n], j) == OverCap(init, decisions, j)
  {
    assert decisions[..n][..j] == decisions[..j];
  }

  /** A stream stops for too many unacknowledged records exactly when its batch holds one over the cap. */
  lemma TooManyUnackedExactly(events: seq<Event>)
    requires events != [] && Run(events[..|events| - 1]).state.Running?
    ensures var init, e := events[..|events| - 1], events[|events| - 1];
      Run(events).state == Stopped(TooManyUnacked) <==>
      e.Poll? && exists j | 0 <= j < |e.decisions| :: OverCap(init, e.decisions, j)
  {
    hide OverCap, RegisterAll, AckAll, Commit;
    var init, e := events[..|events| - 1], events[|events| - 1];
    if e.Poll? { RegisterFailsExactly(init, e.decisions); }
  }
}
