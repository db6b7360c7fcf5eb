/** Queue sessions over a share group, under every interleaving of calls (queue.rs). */
module QueueSession {
  import opened Wrappers

  // The outstanding-batch tracker, the handlers' loops over their entries, and acquire, acknowledge
  // and renew calls on one session. A call gives up control only where the source awaits: for the
  // consumer lock, for a backend poll, and for the broker's answer to one entry. A call may also be
  // abandoned there.

  type Coordinate = (string, int, int)

  /** A broker error with a server code, the error for an entry without a type, or any other consumer error. */
  datatype ConsumerError = Server(code: int) | TypeRequired | OtherError

  datatype Operation = Disposition | Renew

  const INVALID_RECORD_STATE := 121

  /** `acknowledgement_releases_tracking`. */
  predicate Releases(error: Option<ConsumerError>, operation: Operation) {
    operation == Disposition && (error.None? || error.value == Server(INVALID_RECORD_STATE))
  }

  // ---------- the outstanding batch ----------

  function Coordinates(batch: seq<Coordinate>): set<Coordinate> { set c | c in batch }

  /** What inserting a batch leaves behind, and whether all of it went in. */
  function Recorded(have: set<Coordinate>, batch: seq<Coordinate>, maximum: nat): (set<Coordinate>, bool)
    decreases |batch|
  {
    if batch == [] then (have, true)
    else if |have| == maximum && batch[0] !in have then (have, false)
    else Recorded(have + {batch[0]}, batch[1..], maximum)
  }

  /** A batch goes in whole exactly when its distinct coordinates fit; otherwise the tracker is left full. */
  lemma {:induction false} RecordedExactly(have: set<Coordinate>, batch: seq<Coordinate>, maximum: nat)
    requires |have| <= maximum
    ensures var (after, ok) := Recorded(have, batch, maximum);
      && (ok <==> |have + Coordinates(batch)| <= maximum)
      && (ok ==> after == have + Coordinates(batch))
      && (!ok ==> have <= after <= have + Coordinates(batch) && |after| == maximum)
    decreases |batch|
  {
    if batch == [] {
      assert have + Coordinates(batch) == have;
    } else if |have| == maximum && batch[0] !in have {
      SubsetSize(have + {batch[0]}, have + Coordinates(batch));
    } else {
      assert batch[0] in have ==> have + {batch[0]} == have;
      RecordedExactly(have + {batch[0]}, batch[1..], maximum);
      NextCoordinate(have, batch);
    }
  }

  lemma NextCoordinate(have: set<Coordinate>, batch: seq<Coordinate>)
    requires batch != []
    ensures have + {batch[0]} + Coordinates(batch[1..]) == have + Coordinates(batch)
  {
    assert batch == [batch[0]] + batch[1..];
    assert Coordinates(batch) == {batch[0]} + Coordinates(batch[1..]);
  }

  lemma {:induction false} FewCoordinates(batch: seq<Coordinate>)
    ensures |Coordinates(batch)| <= |batch|
  {
    if batch == [] {
      assert Coordinates(batch) == {};
    } else {
      FewCoordinates(batch[1..]);
      NextCoordinate({}, batch);
      assert {} + {batch[0]} + Coordinates(batch[1..]) == {batch[0]} + Coordinates(batch[1..]);
      assert {} + Coordinates(batch) == Coordinates(batch);
    }
  }

  class QueueAcquisitions {
    var coordinates: set<Coordinate>

    constructor ()
      ensures coordinates == {}
    {
      coordinates := {};
    }

    predicate CanPoll()
      reads this
    {
      coordinates == {}
    }

    method RecordBatch(batch: seq<Coordinate>, maximum: nat) returns (r: Result<(), ()>)
      modifies this
      ensures !old(CanPoll()) ==> r.Err? && coordinates == old(coordinates)
      ensures old(CanPoll()) ==> (coordinates, r.Ok?) == Recorded({}, batch, maximum)
      ensures old(CanPoll()) ==> (r.Ok? <==> |Coordinates(batch)| <= maximum)
      ensures r.Ok? ==> coordinates == Coordinates(batch)
      ensures old(CanPoll()) ==> |coordinates| <= maximum
    {
      if !CanPoll() {
        return Err(());
      }
      RecordedExactly({}, batch, maximum);
      assert {} + Coordinates(batch) == Coordinates(batch);
      assert batch[0..] == batch;
      for i := 0 to |batch|
        invariant Recorded(coordinates, batch[i..], maximum) == Recorded({}, batch, maximum)
      {
        TailOfTail(batch, i, 1);
        if |coordinates| == maximum && batch[i] !in coordinates {
          return Err(());
        }
        coordinates := coordinates + {batch[i]};
      }
      r := Ok(());
    }

    method Finish(coordinate: Coordinate)
      modifies this
      ensures coordinates == old(coordinates) - {coordinate}
    {
      coordinates := coordinates - {coordinate};
    }
  }

  // ---------- one call's entries ----------

  /** An entry of an acknowledge or renew call; `typed` says its acknowledgement type is one of the three. */
  datatype Entry = Entry(coordinate: Coordinate, typed: bool)

  datatype EntryResult = Answered(error: Option<ConsumerError>) | NotAcquired

  /** Whether an entry is put to the broker at all. */
  predicate Asked(tracked: set<Coordinate>, entry: Entry, operation: Operation) {
    entry.coordinate in tracked && (entry.typed || operation == Renew)
  }

  /** The result of one entry, given the verdict the broker would return for it. */
  function ResultOf(tracked: set<Coordinate>, entry: Entry, operation: Operation, verdict: Option<ConsumerError>): EntryResult {
    if operation == Disposition && !entry.typed then EntryResult.Answered(Some(TypeRequired))
    else if entry.coordinate !in tracked then NotAcquired
    else EntryResult.Answered(verdict)
  }

  function Settled(tracked: set<Coordinate>, entry: Entry, operation: Operation, verdict: Option<ConsumerError>): set<Coordinate> {
    if Asked(tracked, entry, operation) && Releases(verdict, operation) then tracked - {entry.coordinate} else tracked
  }

  /** What is tracked after the first entries of a call. */
  function SettledAll(tracked: set<Coordinate>, entries: seq<Entry>, operation: Operation, verdicts: seq<Option<ConsumerError>>): set<Coordinate>
    requires |entries| == |verdicts|
  {
    if entries == [] then tracked
    else
      var n := |entries| - 1;
      Settled(SettledAll(tracked, entries[..n], operation, verdicts[..n]), entries[n], operation, verdicts[n])
  }

  lemma SettledOneMore(tracked: set<Coordinate>, entries: seq<Entry>, operation: Operation, verdicts: seq<Option<ConsumerError>>, i: nat)
    requires |entries| == |verdicts| && i < |entries|
    ensures SettledAll(tracked, entries[..i + 1], operation, verdicts[..i + 1]) ==
            Settled(SettledAll(tracked, entries[..i], operation, verdicts[..i]), entries[i], operation, verdicts[i])
  {
    assert entries[..i + 1][..i] == entries[..i] && verdicts[..i + 1][..i] == verdicts[..i];
  }

  /** The body of the two loops: one entry, and the verdict the broker would return for it. */
  method AnswerEntry(acquired: QueueAcquisitions, entry: Entry, operation: Operation, verdict: Option<ConsumerError>)
    returns (result: EntryResult)
    modifies acquired
    ensures acquired.coordinates == Settled(old(acquired.coordinates), entry, operation, verdict)
    ensures result == ResultOf(old(acquired.coordinates), entry, operation, verdict)
  {
    if (entry.typed || operation == Renew) && entry.coordinate !in acquired.coordinates {
      return NotAcquired;
    }
    var error := if entry.typed || operation == Renew then verdict else Some(TypeRequired);
    if Releases(error, operation) {
      acquired.Finish(entry.coordinate);
    }
    result := EntryResult.Answered(error);
  }

  /**
   The loops of `queue_acknowledge` and `queue_renew`, which hold the consumer lock throughout:
   nothing else changes the tracker meanwhile.
   */
  method AnswerEntries(acquired: QueueAcquisitions, entries: seq<Entry>, operation: Operation, verdicts: seq<Option<ConsumerError>>)
    returns (results: seq<EntryResult>)
    requires |entries| == |verdicts|
    modifies acquired
    ensures acquired.coordinates == SettledAll(old(acquired.coordinates), entries, operation, verdicts)
    ensures |results| == |entries|
    ensures forall i | 0 <= i < |entries| ::
      Reports(results[i], HeldAtTurn(old(acquired.coordinates), entries, operation, verdicts, i), entries[i], operation, verdicts[i])
  {
    hide ResultOf, Settled, Reports, HeldAtTurn;
    results := [];
    ghost var start := acquired.coordinates;
    for i := 0 to |entries|
      invariant acquired.coordinates == SettledAll(start, entries[..i], operation, verdicts[..i])
      invariant |results| == i
      invariant forall k | 0 <= k < i ::
        results[k] == ResultOf(SettledAll(start, entries[..k], operation, verdicts[..k]), entries[k], operation, verdicts[k])
    {
      SettledOneMore(start, entries, operation, verdicts, i);
      var result := AnswerEntry(acquired, entries[i], operation, verdicts[i]);
      results := results + [result];
    }
    assert entries[..|entries|] == entries && verdicts[..|verdicts|] == verdicts;
    forall i | 0 <= i < |entries|
      ensures Reports(results[i], HeldAtTurn(start, entries, operation, verdicts, i), entries[i], operation, verdicts[i])
    {
      ResultReports(start, entries, operation, verdicts, i);
    }
  }

  /** One of a disposition's entries was for `c`, well typed, and released by the broker. */
  predicate ReleasedBy(c: Coordinate, entries: seq<Entry>, verdicts: seq<Option<ConsumerError>>)
    requires |entries| == |verdicts|
  {
    exists i | 0 <= i < |entries| ::
      entries[i].coordinate == c && entries[i].typed && (verdicts[i] == None || verdicts[i] == Some(Server(121)))
  }

  /** A coordinate is still tracked after a disposition call exactly when the call released it by no entry. */
  lemma {:induction false} DispositionsReleaseExactly(tracked: set<Coordinate>, entries: seq<Entry>, verdicts: seq<Option<ConsumerError>>, c: Coordinate)
    requires |entries| == |verdicts|
    ensures c in SettledAll(tracked, entries, Disposition, verdicts) <==> c in tracked && !ReleasedBy(c, entries, verdicts)
    decreases |entries|
  {
    if entries != [] {
      var n := |entries| - 1;
      DispositionsReleaseExactly(tracked, entries[..n], verdicts[..n], c);
      if ReleasedBy(c, entries[..n], verdicts[..n]) {
        var i :| 0 <= i < n && entries[..n][i].coordinate == c && entries[..n][i].typed && verdicts[..n][i] in {None, Some(Server(121))};
        assert entries[i].coordinate == c && entries[i].typed && verdicts[i] in {None, Some(Server(121))};
      }
      if ReleasedBy(c, entries, verdicts) && !ReleasedBy(c, entries[..n], verdicts[..n]) {
        var i :| 0 <= i < |entries| && entries[i].coordinate == c && entries[i].typed && verdicts[i] in {None, Some(Server(121))};
        assert i < n ==> entries[..n][i] == entries[i] && verdicts[..n][i] == verdicts[i];
      }
    }
  }

  /** The coordinate of entry `i` is held when its turn comes: it was at the start, and no earlier entry released it. */
  predicate HeldAtTurn(start: set<Coordinate>, entries: seq<Entry>, operation: Operation, verdicts: seq<Option<ConsumerError>>, i: nat)
    requires |entries| == |verdicts| && i < |entries|
  {
    && entries[i].coordinate in start
    && (operation == Disposition ==> !ReleasedBy(entries[i].coordinate, entries[..i], verdicts[..i]))
  }

  /**
   What an entry's result says. Success: the coordinate was held, the entry was well typed or a
   renewal, and the broker answered without error. An error: the broker answered with it, or the
   entry had no type. Not acquired: the coordinate was not held.
   */
  ghost predicate Reports(result: EntryResult, held: bool, entry: Entry, operation: Operation, verdict: Option<ConsumerError>) {
    var known := entry.typed || operation == Renew;
    && (result == EntryResult.Answered(None) <==> known && held && verdict == None)
    && (forall e :: result == EntryResult.Answered(Some(e)) <==>
                    (known && held && verdict == Some(e)) || (!known && e == TypeRequired))
    && (result == NotAcquired <==> known && !held)
  }

  lemma ResultReports(start: set<Coordinate>, entries: seq<Entry>, operation: Operation, verdicts: seq<Option<ConsumerError>>, i: nat)
    requires |entries| == |verdicts| && i < |entries|
    ensures Reports(ResultOf(SettledAll(start, entries[..i], operation, verdicts[..i]), entries[i], operation, verdicts[i]),
                    HeldAtTurn(start, entries, operation, verdicts, i), entries[i], operation, verdicts[i])
  {
    hide SettledAll, ReleasedBy;
    if operation == Disposition {
      DispositionsReleaseExactly(start, entries[..i], verdicts[..i], entries[i].coordinate);
    } else {
      RenewReleasesNothing(start, entries[..i], verdicts[..i]);
    }
  }

  /** A disposition reports success exactly when it released its coordinate, and not for code 121. */
  lemma SuccessIsRelease(start: set<Coordinate>, entries: seq<Entry>, verdicts: seq<Option<ConsumerError>>, i: nat, result: EntryResult)
    requires |entries| == |verdicts| && i < |entries|
    requires Reports(result, HeldAtTurn(start, entries, Disposition, verdicts, i), entries[i], Disposition, verdicts[i])
    ensures result == EntryResult.Answered(None) <==>
      && entries[i].coordinate in SettledAll(start, entries[..i], Disposition, verdicts[..i])
      && entries[i].coordinate !in SettledAll(start, entries[..i + 1], Disposition, verdicts[..i + 1])
      && verdicts[i] != Some(Server(121))
  {
    hide ReleasedBy;
    DispositionsReleaseExactly(start, entries[..i], verdicts[..i], entries[i].coordinate);
    SettledOneMore(start, entries, Disposition, verdicts, i);
  }

  /** Renewing releases nothing, whatever the broker answers. */
  lemma {:induction false} RenewReleasesNothing(tracked: set<Coordinate>, entries: seq<Entry>, verdicts: seq<Option<ConsumerError>>)
    requires |entries| == |verdicts|
    ensures SettledAll(tracked, entries, Renew, verdicts) == tracked
    decreases |entries|
  {
    if entries != [] {
      var n := |entries| - 1;
      RenewReleasesNothing(tracked, entries[..n], verdicts[..n]);
    }
  }

  // ---------- every interleaving on one session ----------

  datatype Outcome =
    | Acquired(batch: seq<Coordinate>) | Outstanding | Backend | LimitExceeded | Finished(results: seq<EntryResult>) | Abandoned

  /** Where one call is. */
  datatype Call =
    | WaitsToAcquire                                            // for the consumer lock
    | HoldsToAcquire                                            // before the can-poll check
    | Polling                                                   // backend poll in flight
    | Polled(batch: seq<Coordinate>)                            // before the batch is recorded
    | WaitsToAnswer(operation: Operation, entries: seq<Entry>)  // for the consumer lock
    | AtEntry(operation: Operation, entries: seq<Entry>, results: seq<EntryResult>)
    | Asking(operation: Operation, entries: seq<Entry>, results: seq<EntryResult>)  // broker call in flight
    | Told(operation: Operation, entries: seq<Entry>, results: seq<EntryResult>, verdict: Option<ConsumerError>)
    | Over(outcome: Outcome)

  predicate Waits(c: Call) { c.WaitsToAcquire? || c.WaitsToAnswer? }

  predicate Holds(c: Call) { !Waits(c) && !c.Over? }

  datatype Change =
    | Recording(batch: set<Coordinate>)
    | Releasing(coordinate: Coordinate, operation: Operation, verdict: Option<ConsumerError>)

  datatype Session = Session(
    maximum: nat,
    tracked: set<Coordinate>,
    lock: Option<nat>,
    calls: map<nat, Call>,
    log: seq<Change>)
  {
    function With(id: nat, c: Call): Session { this.(calls := calls[id := c]) }

    function End(id: nat, outcome: Outcome): Session { this.(calls := calls[id := Over(outcome)], lock := None) }
  }

  datatype Event =
    | Begin(id: nat, call: Call)
    | TakeLock(id: nat)
    | CheckCanPoll(id: nat)
    | PollReturns(id: nat, batch: Result<seq<Coordinate>, ()>)
    | RecordsBatch(id: nat)
    | NextEntry(id: nat)
    | BrokerAnswers(id: nat, verdict: Option<ConsumerError>)
    | SettlesEntry(id: nat)
    | Abandon(id: nat)

  function Opened(maximum: nat): Session { Session(maximum, {}, None, map[], []) }

  /** One step; an event that the call it names is not ready for does nothing. */
  function Step(s: Session, e: Event): Session {
    if e.Begin? then
      if e.id !in s.calls && Waits(e.call) then s.With(e.id, e.call) else s
    else if e.id !in s.calls then s
    else CallStep(s, e, s.calls[e.id])
  }

  function CallStep(s: Session, e: Event, c: Call): Session
    requires !e.Begin?
  {
    match (e, c)
    case (TakeLock(id), WaitsToAcquire) =>
      if s.lock.None? then s.With(id, HoldsToAcquire).(lock := Some(id)) else s
    case (TakeLock(id), WaitsToAnswer(op, entries)) =>
      if s.lock.None? then s.With(id, AtEntry(op, entries, [])).(lock := Some(id)) else s
    case (CheckCanPoll(id), HoldsToAcquire) =>
      if s.tracked == {} then s.With(id, Polling) else s.End(id, Outstanding)
    case (PollReturns(id, r), Polling) =>
      if r.Err? then s.End(id, Backend)
      else if |r.value| > s.maximum then s.End(id, LimitExceeded)
      else s.With(id, Polled(r.value))
    case (RecordsBatch(id), Polled(batch)) => RecordStep(s, id, batch)
    case (NextEntry(id), AtEntry(op, entries, results)) => EntryStep(s, id, op, entries, results)
    case (BrokerAnswers(id, verdict), Asking(op, entries, results)) => s.With(id, Told(op, entries, results, verdict))
    case (SettlesEntry(id), Told(op, entries, results, verdict)) => SettleStep(s, id, op, entries, results, verdict)
    case (Abandon(id), WaitsToAcquire) => s.With(id, Over(Abandoned))
    case (Abandon(id), WaitsToAnswer(_, _)) => s.With(id, Over(Abandoned))
    case (Abandon(id), Polling) => s.End(id, Abandoned)
    case (Abandon(id), Asking(_, _, _)) => s.End(id, Abandoned)
    case _ => s
  }

  function RecordStep(s: Session, id: nat, batch: seq<Coordinate>): Session {
    if s.tracked != {} then s.End(id, LimitExceeded)
    else
      var (after, ok) := Recorded({}, batch, s.maximum);
      s.End(id, if ok then Acquired(batch) else LimitExceeded).(tracked := after, log := s.log + [Recording(after)])
  }

  /** The next entry is the one after those that have a result. */
  function EntryStep(s: Session, id: nat, op: Operation, entries: seq<Entry>, results: seq<EntryResult>): Session {
    if |results| >= |entries| then s.End(id, Finished(results))
    else
      var entry := entries[|results|];
      if Asked(s.tracked, entry, op) then s.With(id, Asking(op, entries, results))
      else
        var result := if entry.typed || op == Renew then NotAcquired else EntryResult.Answered(Some(TypeRequired));
        s.With(id, AtEntry(op, entries, results + [result]))
  }

  function SettleStep(s: Session, id: nat, op: Operation, entries: seq<Entry>, results: seq<EntryResult>, verdict: Option<ConsumerError>): Session {
    var next := s.With(id, AtEntry(op, entries, results + [EntryResult.Answered(verdict)]));
    if |results| < |entries| && Releases(verdict, op) then
      var c := entries[|results|].coordinate;
      next.(tracked := s.tracked - {c}, log := s.log + [Releasing(c, op, verdict)])
    else next
  }

  function Run(s: Session, events: seq<Event>): Session {
    if events == [] then s else Step(Run(s, events[..|events| - 1]), events[|events| - 1])
  }

  // ---------- what every run keeps ----------

  function Changed(before: set<Coordinate>, change: Change): set<Coordinate> {
    match change
    case Recording(batch) => batch
    case Releasing(c, _, _) => before - {c}
  }

  /** What a history of batches and releases leaves outstanding. */
  function Replay(log: seq<Change>): set<Coordinate> {
    if log == [] then {} else Changed(Replay(log[..|log| - 1]), log[|log| - 1])
  }

  /**
   A batch is recorded only when nothing is outstanding and within the limit; a coordinate is
   released only while it is outstanding, and only by a disposition that succeeded or that the
   broker answered with INVALID_RECORD_STATE.
   */
  predicate LegalChange(before: set<Coordinate>, change: Change, maximum: nat) {
    match change
    case Recording(batch) => before == {} && |batch| <= maximum
    case Releasing(c, op, verdict) => c in before && op == Disposition && Releases(verdict, op)
  }

  predicate Legal(log: seq<Change>, maximum: nat) {
    forall k | 0 <= k < |log| :: LegalChange(Replay(log[..k]), log[k], maximum)
  }

  /** What is true of one call. */
  predicate CallOk(s: Session, id: nat, c: Call) {
    && (Holds(c) <==> s.lock == Some(id))
    && (c.Polling? || c.Polled? ==> s.tracked == {})
    && (c.Polled? ==> |c.batch| <= s.maximum)
    && (c.Asking? || c.Told? ==> |c.results| < |c.entries| && Asked(s.tracked, c.entries[|c.results|], c.operation))
  }

  predicate Inv(s: Session) {
    && |s.tracked| <= s.maximum
    && (s.lock.Some? ==> s.lock.value in s.calls)
    && (forall id | id in s.calls :: CallOk(s, id, s.calls[id]))
    && s.tracked == Replay(s.log) && Legal(s.log, s.maximum)
  }

  lemma LogOne(log: seq<Change>, change: Change, maximum: nat)
    requires Legal(log, maximum) && LegalChange(Replay(log), change, maximum)
    ensures Legal(log + [change], maximum)
    ensures Replay(log + [change]) == Changed(Replay(log), change)
  {
    var all := log + [change];
    assert all[..|log|] == log;
    forall k | 0 <= k < |all| ensures LegalChange(Replay(all[..k]), all[k], maximum) {
      if k < |log| { assert all[..k] == log[..k]; }
    }
  }

  /** The length check leaves nothing for the tracker to refuse. */
  lemma BatchIsRecordedWhole(s: Session, id: nat)
    requires Inv(s) && id in s.calls && s.calls[id].Polled?
    ensures var batch := s.calls[id].batch;
      && Step(s, RecordsBatch(id)).calls[id] == Over(Acquired(batch))
      && Step(s, RecordsBatch(id)).tracked == Coordinates(batch) && |Coordinates(batch)| <= s.maximum
  {
    hide Replay, Legal, Recorded, EntryStep, SettleStep;
    var batch := s.calls[id].batch;
    assert CallOk(s, id, s.calls[id]);
    RecordedExactly({}, batch, s.maximum);
    assert {} + Coordinates(batch) == Coordinates(batch);
    FewCoordinates(batch);
  }

  /** A step of the call that has, takes or gives back the lock concerns no other call. */
  lemma OnlyTheHolder(s: Session, t: Session, id: nat, c: Call)
    requires Inv(s) && (s.lock.None? || s.lock == Some(id))
    requires t.maximum == s.maximum && t.calls == s.calls[id := c] && CallOk(t, id, c)
    requires t.lock.None? || t.lock == Some(id)
    requires |t.tracked| <= t.maximum && t.tracked == Replay(t.log) && Legal(t.log, t.maximum)
    ensures Inv(t)
  {
    hide Replay, Legal, Asked;
    forall other | other in t.calls ensures CallOk(t, other, t.calls[other]) {
      if other != id {
        assert other in s.calls && t.calls[other] == s.calls[other];
        assert CallOk(s, other, s.calls[other]);
        assert !Holds(s.calls[other]);
      }
    }
  }

  /** A call that waits, or is over, concerns no other call either. */
  lemma OnlyAWaiter(s: Session, t: Session, id: nat, c: Call)
    requires Inv(s) && s.lock != Some(id) && !Holds(c)
    requires t == s.With(id, c)
    ensures Inv(t)
  {
    hide Replay, Legal, Asked;
    forall other | other in t.calls ensures CallOk(t, other, t.calls[other]) {
      if other != id { assert CallOk(s, other, s.calls[other]); }
    }
  }

  lemma RecordKeeps(s: Session, id: nat)
    requires Inv(s) && id in s.calls && s.calls[id].Polled?
    ensures Inv(Step(s, RecordsBatch(id)))
  {
    var batch := s.calls[id].batch;
    assert CallOk(s, id, s.calls[id]);
    BatchIsRecordedWhole(s, id);
    RecordingKeeps(s, id, batch);
    assert Step(s, RecordsBatch(id)) == RecordStep(s, id, batch);
  }

  lemma RecordingKeeps(s: Session, id: nat, batch: seq<Coordinate>)
    requires Inv(s) && s.lock == Some(id) && s.tracked == {}
    requires |Coordinates(batch)| <= s.maximum
    ensures Inv(RecordStep(s, id, batch))
  {
    hide Replay, Legal, Asked, Recorded, Coordinates;
    RecordedExactly({}, batch, s.maximum);
    assert {} + Coordinates(batch) == Coordinates(batch);
    LogOne(s.log, Recording(Coordinates(batch)), s.maximum);
    OnlyTheHolder(s, RecordStep(s, id, batch), id, Over(Acquired(batch)));
  }

  lemma SettleKeeps(s: Session, id: nat)
    requires Inv(s) && id in s.calls && s.calls[id].Told?
    ensures Inv(Step(s, SettlesEntry(id)))
  {
    hide Replay, Legal, RecordStep, EntryStep;
    var c := s.calls[id];
    assert CallOk(s, id, c);
    var next := AtEntry(c.operation, c.entries, c.results + [EntryResult.Answered(c.verdict)]);
    if Releases(c.verdict, c.operation) {
      ReleaseKeeps(s, id, c.entries[|c.results|].coordinate, c.operation, c.verdict, next);
    } else {
      OnlyTheHolder(s, s.With(id, next), id, next);
    }
  }

  lemma ReleaseKeeps(s: Session, id: nat, coordinate: Coordinate, op: Operation, verdict: Option<ConsumerError>, next: Call)
    requires Inv(s) && s.lock == Some(id) && next.AtEntry?
    requires coordinate in s.tracked && Releases(verdict, op)
    ensures Inv(s.With(id, next).(tracked := s.tracked - {coordinate}, log := s.log + [Releasing(coordinate, op, verdict)]))
  {
    hide Replay, Legal, Asked;
    LogOne(s.log, Releasing(coordinate, op, verdict), s.maximum);
    SubsetSize(s.tracked - {coordinate}, s.tracked);
    var t := s.With(id, next).(tracked := s.tracked - {coordinate}, log := s.log + [Releasing(coordinate, op, verdict)]);
    OnlyTheHolder(s, t, id, next);
  }

  lemma AcquirerKeeps(s: Session, e: Event)
    requires Inv(s) && !e.Begin? && !e.RecordsBatch? && e.id in s.calls
    requires var c := s.calls[e.id]; c.HoldsToAcquire? || c.Polling? || c.Polled?
    ensures Inv(Step(s, e))
  {
    hide Replay, Legal, Asked, RecordStep, EntryStep, SettleStep;
    var c := s.calls[e.id];
    assert CallOk(s, e.id, c);
    if e.CheckCanPoll? && c.HoldsToAcquire? {
      if s.tracked == {} { OnlyTheHolder(s, s.With(e.id, Polling), e.id, Polling); }
      else { OnlyTheHolder(s, s.End(e.id, Outstanding), e.id, Over(Outstanding)); }
    } else if e.PollReturns? && c.Polling? {
      PollReturnKeeps(s, e.id, e.batch);
    } else if e.Abandon? && c.Polling? {
      OnlyTheHolder(s, s.End(e.id, Abandoned), e.id, Over(Abandoned));
    }
  }

  lemma PollReturnKeeps(s: Session, id: nat, r: Result<seq<Coordinate>, ()>)
    requires Inv(s) && id in s.calls && s.calls[id].Polling?
    ensures Inv(Step(s, PollReturns(id, r)))
  {
    assert CallOk(s, id, s.calls[id]);
    if r.Err? { OnlyTheHolder(s, s.End(id, Backend), id, Over(Backend)); }
    else if |r.value| > s.maximum { OnlyTheHolder(s, s.End(id, LimitExceeded), id, Over(LimitExceeded)); }
    else { OnlyTheHolder(s, s.With(id, Polled(r.value)), id, Polled(r.value)); }
  }

  lemma AnswererKeeps(s: Session, e: Event)
    requires Inv(s) && !e.Begin? && !e.SettlesEntry? && e.id in s.calls
    requires var c := s.calls[e.id]; c.AtEntry? || c.Asking? || c.Told?
    ensures Inv(Step(s, e))
  {
    hide Replay, Legal, Asked, RecordStep, SettleStep;
    assert CallOk(s, e.id, s.calls[e.id]);
    var t := Step(s, e);
    if t != s { OnlyTheHolder(s, t, e.id, t.calls[e.id]); }
  }

  lemma WaiterKeeps(s: Session, e: Event)
    requires Inv(s) && !e.Begin? && e.id in s.calls && Waits(s.calls[e.id])
    ensures Inv(Step(s, e))
  {
    hide Replay, Legal, Asked, RecordStep, EntryStep, SettleStep;
    assert CallOk(s, e.id, s.calls[e.id]);
    var t := Step(s, e);
    if e.TakeLock? && s.lock.None? {
      OnlyTheHolder(s, t, e.id, t.calls[e.id]);
    } else if e.Abandon? {
      OnlyAWaiter(s, t, e.id, Over(Abandoned));
    }
  }

  lemma NothingHappens(s: Session, e: Event, c: Call)
    requires !e.Begin?
    requires c.Over? || (e.RecordsBatch? && !c.Polled?) || (e.SettlesEntry? && !c.Told?)
    ensures CallStep(s, e, c) == s
  {
  }

  lemma CallKeeps(s: Session, e: Event)
    requires Inv(s) && !e.Begin? && e.id in s.calls
    ensures Inv(Step(s, e))
  {
    var c := s.calls[e.id];
    if e.RecordsBatch? && c.Polled? { RecordKeeps(s, e.id); }
    else if e.SettlesEntry? && c.Told? { SettleKeeps(s, e.id); }
    else if c.Over? || e.RecordsBatch? || e.SettlesEntry? { NothingHappens(s, e, c); }
    else if Waits(c) { WaiterKeeps(s, e); }
    else if c.HoldsToAcquire? || c.Polling? || c.Polled? { AcquirerKeeps(s, e); }
    else { AnswererKeeps(s, e); }
  }

  lemma StepKeeps(s: Session, e: Event)
    requires Inv(s)
    ensures Inv(Step(s, e))
  {
    if e.Begin? {
      if e.id !in s.calls && Waits(e.call) { OnlyAWaiter(s, Step(s, e), e.id, e.call); }
    } else if e.id in s.calls {
      CallKeeps(s, e);
    }
  }

  lemma {:induction false} MaximumIsFixed(s: Session, events: seq<Event>)
    ensures Run(s, events).maximum == s.maximum
    decreases |events|
  {
    if events != [] { MaximumIsFixed(s, events[..|events| - 1]); }
  }

  /** The protocol holds in every reachable state of every run. */
  lemma {:induction false} RunKeeps(maximum: nat, events: seq<Event>)
    ensures Inv(Run(Opened(maximum), events)) && |Run(Opened(maximum), events).tracked| <= maximum
    decreases |events|
  {
    MaximumIsFixed(Opened(maximum), events);
    if events != [] {
      RunKeeps(maximum, events[..|events| - 1]);
      StepKeeps(Run(Opened(maximum), events[..|events| - 1]), events[|events| - 1]);
    }
  }

  // ---------- what the protocol means ----------

  /** A backend poll starts only when nothing is outstanding. */
  lemma PollStartsEmpty(s: Session, e: Event, id: nat)
    requires Inv(s) && id in Step(s, e).calls && Step(s, e).calls[id].Polling?
    requires id in s.calls ==> !s.calls[id].Polling?
    ensures e == CheckCanPoll(id) && s.tracked == {}
  {
    if e.id != id { OthersStay(s, e, id); }
  }

  lemma OthersStay(s: Session, e: Event, id: nat)
    requires e.id != id
    ensures id in Step(s, e).calls <==> id in s.calls
    ensures id in s.calls ==> Step(s, e).calls[id] == s.calls[id]
  {
  }

  /** No other call holds the lock while a poll is in flight. */
  lemma PollsAreAlone(s: Session, id: nat, other: nat)
    requires Inv(s) && id in s.calls && other in s.calls && id != other
    requires s.calls[id].Polling? || s.calls[id].Polled?
    ensures !Holds(s.calls[other])
  {
    assert CallOk(s, id, s.calls[id]) && CallOk(s, other, s.calls[other]);
  }

  /** A coordinate leaves only when its own disposition succeeded or was answered with code 121. */
  lemma LeavesOnlyWhenReleased(s: Session, e: Event, c: Coordinate)
    requires Inv(s) && c in s.tracked && c !in Step(s, e).tracked
    ensures e.SettlesEntry? && e.id in s.calls && s.calls[e.id].Told?
    ensures var call := s.calls[e.id];
      && |call.results| < |call.entries| && call.entries[|call.results|] == Entry(c, true)
      && call.operation == Disposition && (call.verdict.None? || call.verdict == Some(Server(121)))
  {
    assert e.id in s.calls && CallOk(s, e.id, s.calls[e.id]);
  }

  /** Only dispositions and renewals of coordinates the session holds reach the broker. */
  lemma BrokerIsAskedAboutHeld(s: Session, e: Event, id: nat)
    requires Inv(s) && id in Step(s, e).calls && Step(s, e).calls[id].Asking?
    ensures var call := Step(s, e).calls[id];
      |call.results| < |call.entries| && call.entries[|call.results|].coordinate in Step(s, e).tracked
  {
    StepKeeps(s, e);
    assert CallOk(Step(s, e), id, Step(s, e).calls[id]);
  }

  function CallAfter(s: Session, e: Event, id: nat): Call
    requires id in s.calls
  {
    var t := Step(s, e);
    if id in t.calls then t.calls[id] else s.calls[id]
  }

  /**
   Why an acquire ends, in every reachable state: with `Outstanding` exactly when it finds a
   coordinate tracked, with `Backend` exactly when its poll failed, with `LimitExceeded` exactly when
   its poll returned more than the limit, and otherwise with the batch its poll returned.
   */
  lemma AcquireEndsExactly(s: Session, e: Event, id: nat)
    requires Inv(s) && id in s.calls && (s.calls[id].HoldsToAcquire? || s.calls[id].Polling? || s.calls[id].Polled?)
    ensures var c, d := s.calls[id], CallAfter(s, e, id);
      && (d == Over(Outstanding) <==> e == CheckCanPoll(id) && c.HoldsToAcquire? && s.tracked != {})
      && (c.HoldsToAcquire? ==> (d.Polling? <==> e == CheckCanPoll(id) && s.tracked == {}))
      && (d == Over(Backend) <==> e.PollReturns? && e.id == id && e.batch.Err? && c.Polling?)
      && (d == Over(LimitExceeded) <==> exists batch :: e == PollReturns(id, Ok(batch)) && c.Polling? && |batch| > s.maximum)
      && (forall batch :: d == Polled(batch) <==>
            (e == PollReturns(id, Ok(batch)) && c.Polling? && |batch| <= s.maximum) || (c == Polled(batch) && e != RecordsBatch(id)))
      && (forall batch :: d == Over(Acquired(batch)) <==> e == RecordsBatch(id) && c == Polled(batch))
  {
    hide Replay, Legal, Recorded, EntryStep, SettleStep;
    var c := s.calls[id];
    assert CallOk(s, id, c);
    if e.id != id {
      OthersStay(s, e, id);
    } else if e.RecordsBatch? && c.Polled? {
      BatchIsRecordedWhole(s, id);
    } else if e.PollReturns? && e.batch.Ok? {
      assert e == PollReturns(id, Ok(e.batch.value));
    }
  }

  function LastBatch(log: seq<Change>): set<Coordinate> {
    if log == [] then {}
    else if log[|log| - 1].Recording? then log[|log| - 1].batch
    else LastBatch(log[..|log| - 1])
  }

  function ReleasedSince(log: seq<Change>): set<Coordinate> {
    if log == [] || log[|log| - 1].Recording? then {}
    else ReleasedSince(log[..|log| - 1]) + {log[|log| - 1].coordinate}
  }

  /** What is outstanding is the last batch less what has been released since, each coordinate once. */
  lemma {:induction false} BatchIsAccountedFor(log: seq<Change>, maximum: nat)
    requires Legal(log, maximum)
    ensures Replay(log) + ReleasedSince(log) == LastBatch(log)
    ensures Replay(log) !! ReleasedSince(log)
    decreases |log|
  {
    hide Legal;
    if log != [] && log[|log| - 1].Releasing? {
      var init, c := log[..|log| - 1], log[|log| - 1].coordinate;
      PrefixIsLegal(log, |log| - 1, maximum);
      BatchIsAccountedFor(init, maximum);
      ReleaseOne(Replay(init), ReleasedSince(init), c);
    }
  }

  lemma ReleaseOne(held: set<Coordinate>, released: set<Coordinate>, c: Coordinate)
    requires c in held && held !! released
    ensures (held - {c}) + (released + {c}) == held + released && (held - {c}) !! (released + {c})
  {
  }

  lemma PrefixIsLegal(log: seq<Change>, n: nat, maximum: nat)
    requires Legal(log, maximum) && n < |log|
    ensures Legal(log[..n], maximum) && LegalChange(Replay(log[..n]), log[n], maximum)
  {
    hide Replay, LegalChange;
    forall k | 0 <= k < n ensures LegalChange(Replay(log[..n][..k]), log[..n][k], maximum) {
      assert log[..n][..k] == log[..k];
      assert LegalChange(Replay(log[..k]), log[k], maximum);
    }
  }

  // ---------- what one call did ----------

  /** What was tracked when an answering call took the lock, and the broker's verdicts on its entries so far. */
  datatype Answers = Answers(start: set<Coordinate>, verdicts: seq<Option<ConsumerError>>)

  predicate Answering(c: Call) { c.AtEntry? || c.Asking? || c.Told? }

  /** An entry that is not put to the broker has no verdict of its own; it is written as `None`. */
  function NextAnswers(s: Session, e: Event, id: nat, a: Answers): Answers {
    if e.Begin? || e.id != id || id !in s.calls then a
    else
      match (e, s.calls[id])
      case (TakeLock(_), WaitsToAnswer(_, _)) => if s.lock.None? then Answers(s.tracked, []) else a
      case (NextEntry(_), AtEntry(op, entries, results)) =>
        if |results| < |entries| && !Asked(s.tracked, entries[|results|], op) then a.(verdicts := a.verdicts + [None]) else a
      case (BrokerAnswers(_, verdict), Asking(_, _, _)) => a.(verdicts := a.verdicts + [verdict])
      case _ => a
  }

  /** The answers of call `id` in a run. */
  function AnswersOf(maximum: nat, events: seq<Event>, id: nat): Answers {
    if events == [] then Answers({}, [])
    else
      var before := events[..|events| - 1];
      NextAnswers(Run(Opened(maximum), before), events[|events| - 1], id, AnswersOf(maximum, before, id))
  }

  /** The entries that have a result have the ones their loop gives them, and left what it leaves. */
  ghost predicate Done(a: Answers, op: Operation, entries: seq<Entry>, results: seq<EntryResult>, tracked: set<Coordinate>) {
    && |results| <= |entries| && |results| <= |a.verdicts|
    && tracked == SettledAll(a.start, entries[..|results|], op, a.verdicts[..|results|])
    && forall i | 0 <= i < |results| ::
         results[i] == ResultOf(SettledAll(a.start, entries[..i], op, a.verdicts[..i]), entries[i], op, a.verdicts[i])
  }

  /** While a call answers, what is tracked is what its own verdicts so far make of the start. */
  ghost predicate Accounted(s: Session, id: nat, a: Answers) {
    id in s.calls && Answering(s.calls[id]) ==>
      var c := s.calls[id];
      && Done(a, c.operation, c.entries, c.results, s.tracked)
      && |a.verdicts| == |c.results| + (if c.Told? then 1 else 0)
      && (c.Told? ==> a.verdicts[|c.results|] == c.verdict)
  }

  /** While a call answers, no other call touches what is tracked. */
  lemma HolderIsAlone(s: Session, e: Event, id: nat)
    requires Inv(s) && id in s.calls && Answering(s.calls[id]) && e.id != id
    ensures Step(s, e).tracked == s.tracked
  {
    hide Replay, Legal, Asked;
    assert CallOk(s, id, s.calls[id]);
    if e.id in s.calls { assert CallOk(s, e.id, s.calls[e.id]); }
  }

  /** A verdict more than there are results changes nothing about the results. */
  lemma VerdictStaysOpen(a: Answers, op: Operation, entries: seq<Entry>, results: seq<EntryResult>, tracked: set<Coordinate>,
                         verdict: Option<ConsumerError>)
    requires Done(a, op, entries, results, tracked)
    ensures Done(a.(verdicts := a.verdicts + [verdict]), op, entries, results, tracked)
  {
    hide SettledAll, ResultOf;
    var verdicts := a.verdicts + [verdict];
    forall i | 0 <= i <= |results| ensures verdicts[..i] == a.verdicts[..i] {}
  }

  /** The next entry gets the result its verdict gives, and leaves what it settles. */
  lemma EntryIsDone(a: Answers, op: Operation, entries: seq<Entry>, results: seq<EntryResult>, tracked: set<Coordinate>)
    requires Done(a, op, entries, results, tracked) && |results| < |entries| && |results| < |a.verdicts|
    ensures var n := |results|;
      Done(a, op, entries, results + [ResultOf(tracked, entries[n], op, a.verdicts[n])], Settled(tracked, entries[n], op, a.verdicts[n]))
  {
    hide ResultOf, Settled;
    var n := |results|;
    assert entries[..n + 1][..n] == entries[..n] && a.verdicts[..n + 1][..n] == a.verdicts[..n];
  }

  lemma OwnStepAccounted(s: Session, e: Event, id: nat, a: Answers)
    requires Inv(s) && id in s.calls && !e.Begin? && e.id == id && Answering(s.calls[id]) && Accounted(s, id, a)
    ensures Accounted(Step(s, e), id, NextAnswers(s, e, id, a))
  {
    hide Replay, Legal, SettledAll, RecordStep, Done;
    var c := s.calls[id];
    assert CallOk(s, id, c);
    if e.NextEntry? && c.AtEntry? && |c.results| < |c.entries| && !Asked(s.tracked, c.entries[|c.results|], c.operation) {
      VerdictStaysOpen(a, c.operation, c.entries, c.results, s.tracked, None);
      EntryIsDone(a.(verdicts := a.verdicts + [None]), c.operation, c.entries, c.results, s.tracked);
    } else if e.BrokerAnswers? && c.Asking? {
      VerdictStaysOpen(a, c.operation, c.entries, c.results, s.tracked, e.verdict);
    } else if e.SettlesEntry? && c.Told? {
      EntryIsDone(a, c.operation, c.entries, c.results, s.tracked);
    }
  }

  lemma StepAccounts(s: Session, e: Event, id: nat, a: Answers)
    requires Inv(s) && Accounted(s, id, a)
    ensures Accounted(Step(s, e), id, NextAnswers(s, e, id, a))
  {
    hide Replay, Legal, Asked;
    if id in s.calls && Answering(s.calls[id]) {
      if e.id != id {
        HolderIsAlone(s, e, id);
        OthersStay(s, e, id);
      } else if !e.Begin? {
        OwnStepAccounted(s, e, id, a);
      }
    } else if e.id != id {
      OthersStay(s, e, id);
    } else if id in s.calls && s.calls[id].WaitsToAnswer? {
      assert s.calls[id].entries[..0] == [];
    }
  }

  lemma {:induction false} RunAccounts(maximum: nat, events: seq<Event>, id: nat)
    ensures Accounted(Run(Opened(maximum), events), id, AnswersOf(maximum, events, id))
    decreases |events|
  {
    if events != [] {
      var before := events[..|events| - 1];
      RunKeeps(maximum, before);
      RunAccounts(maximum, before, id);
      StepAccounts(Run(Opened(maximum), before), events[|events| - 1], id, AnswersOf(maximum, before, id));
    }
  }

  lemma OnlyTheEndFinishes(s: Session, e: Event, id: nat)
    requires id in s.calls && !s.calls[id].Over? && id in Step(s, e).calls
    requires var c := Step(s, e).calls[id]; c.Over? && c.outcome.Finished?
    ensures e == NextEntry(id) && s.calls[id].AtEntry? && |s.calls[id].results| >= |s.calls[id].entries|
    ensures Step(s, e).calls[id].outcome.results == s.calls[id].results && Step(s, e).tracked == s.tracked
  {
    hide Asked, Recorded;
    if e.id != id { OthersStay(s, e, id); }
  }

  /**
   However it is interleaved with other calls, a call whose last step finishes it has done to the
   tracked set exactly what its entry loop does when it runs alone on the same verdicts, and each
   of its results says what the broker answered and whether the coordinate was held at its turn.
   */
  lemma FinishedCallSettledAll(maximum: nat, events: seq<Event>, id: nat)
    requires events != [] && id in Run(Opened(maximum), events[..|events| - 1]).calls
    requires !Run(Opened(maximum), events[..|events| - 1]).calls[id].Over?
    requires var t := Run(Opened(maximum), events); id in t.calls && t.calls[id].Over? && t.calls[id].outcome.Finished?
    ensures var c := Run(Opened(maximum), events[..|events| - 1]).calls[id]; var a := AnswersOf(maximum, events, id);
      && c.AtEntry? && |a.verdicts| == |c.entries|
      && Run(Opened(maximum), events).tracked == SettledAll(a.start, c.entries, c.operation, a.verdicts)
    ensures var c := Run(Opened(maximum), events[..|events| - 1]).calls[id]; var a := AnswersOf(maximum, events, id);
      var results := Run(Opened(maximum), events).calls[id].outcome.results;
      && |results| == |c.entries|
      && forall i | 0 <= i < |results| ::
           Reports(results[i], HeldAtTurn(a.start, c.entries, c.operation, a.verdicts, i), c.entries[i], c.operation, a.verdicts[i])
  {
    hide SettledAll, Step, Reports, HeldAtTurn, ResultOf;
    var before, e := events[..|events| - 1], events[|events| - 1];
    var s := Run(Opened(maximum), before);
    RunAccounts(maximum, before, id);
    OnlyTheEndFinishes(s, e, id);
    var c, a := s.calls[id], AnswersOf(maximum, before, id);
    assert c.entries[..|c.entries|] == c.entries && a.verdicts[..|c.entries|] == a.verdicts;
    forall i | 0 <= i < |c.results|
      ensures Reports(c.results[i], HeldAtTurn(a.start, c.entries, c.operation, a.verdicts, i), c.entries[i], c.operation, a.verdicts[i])
    {
      ResultReports(a.start, c.entries, c.operation, a.verdicts, i);
    }
  }
}
