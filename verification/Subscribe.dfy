/** The loop of explicit-acknowledgement subscriptions (consume.rs, streaming.rs). */
module Subscribe {
  import opened Wrappers
  import opened Records
  import opened AckFrontier

  // The consume session's tracker table (consume.rs), the Subscribe loop's own maps and the loop
  // itself (streaming.rs). `Stream` is everything the loop keeps between iterations. `Step` is one
  // iteration; a run is a list of events, each carrying what the outside world contributed to that
  // iteration: the polled and filtered records or the client's acknowledgement, the partitions the
  // group member owned when it committed, and whether the broker accepted the commit.

  type Table = map<TopicPartition, Tracker>
  type Offsets = map<TopicPartition, set<int>>
  type Point = (TopicPartition, int)

  datatype TableOutcome = TableOutcome(ok: bool, table: Table)

  // ---------- the session's table of trackers ----------

  function TrackerOf(table: Table, key: TopicPartition): Tracker {
    if key in table then table[key] else Fresh
  }

  ghost function SessionDeliver(table: Table, key: TopicPartition, offset: int): TableOutcome {
    if key.1 < 0 || offset < 0 then TableOutcome(true, table)
    else
      var r := RecordDelivery(TrackerOf(table, key), offset);
      TableOutcome(r.ok, table[key := r.tracker])
  }

  ghost function SessionAck(table: Table, key: TopicPartition, offset: int): TableOutcome {
    if key.1 < 0 || offset < 0 then TableOutcome(true, table)
    else
      var r := RecordAck(TrackerOf(table, key), offset);
      TableOutcome(r.ok, table[key := r.tracker])
  }

  function Frontier(table: Table, key: TopicPartition): Option<int> {
    if key in table then table[key].frontier else None
  }

  ghost predicate ValidTable(table: Table) {
    forall k | k in table :: Valid(table[k]) && table[k].frontier.Some? && k.1 >= 0
  }

  lemma DeliverKeepsValidTable(table: Table, key: TopicPartition, offset: int)
    requires ValidTable(table) && offset <= I64_MAX
    ensures ValidTable(SessionDeliver(table, key, offset).table)
  {
    if key.1 >= 0 && offset >= 0 {
      DeliveryKeepsValid(TrackerOf(table, key), offset);
    }
  }

  lemma AckKeepsValidTable(table: Table, key: TopicPartition, offset: int)
    requires ValidTable(table) && offset <= I64_MAX
    ensures ValidTable(SessionAck(table, key, offset).table)
  {
    if key.1 >= 0 && offset >= 0 {
      AckKeepsValid(TrackerOf(table, key), offset);
    }
  }

  // ---------- commit ----------

  /** What `commit_acked` sends to the broker for the partitions still owned. */
  function AckedOffsets(table: Table): map<TopicPartition, int> {
    map k | k in table && CommitValue(table[k]).Some? :: CommitValue(table[k]).value
  }

  function Retained(table: Table, owned: set<TopicPartition>): Table {
    map k | k in table && k in owned :: table[k]
  }

  function MarkedCommitted(table: Table, sent: map<TopicPartition, int>): Table {
    map k | k in table :: if k in sent then Committed(table[k], sent[k]) else table[k]
  }

  datatype CommitResult = CommitResult(ok: bool, table: Table, sent: map<TopicPartition, int>)

  function Commit(table: Table, owned: set<TopicPartition>, accepted: bool): CommitResult {
    var kept := Retained(table, owned);
    var sent := AckedOffsets(kept);
    if sent == map[] then CommitResult(true, kept, sent)
    else if !accepted then CommitResult(false, kept, sent)
    else
      CommitResult(true, MarkedCommitted(kept, sent), sent)
  }

  // ---------- the loop's own maps ----------

  datatype Stream = Stream(table: Table, delivered: Offsets, acknowledged: map<TopicPartition, int>)

  const Start: Stream := Stream(map[], map[], map[])

  datatype AckVerdict = Advance | Duplicate | NotDelivered

  function DeliveredOf(delivered: Offsets, key: TopicPartition): set<int> {
    if key in delivered then delivered[key] else {}
  }

  function ValidateAck(s: Stream, key: TopicPartition, offset: I64): AckVerdict {
    if key in s.acknowledged && offset <= s.acknowledged[key] then Duplicate
    else if offset < 0 || offset !in DeliveredOf(s.delivered, key) then NotDelivered
    else Advance
  }

  datatype Marked = Marked(delivered: Offsets, acknowledged: map<TopicPartition, int>, inspected: nat)

  ghost function Above(offsets: set<int>, frontier: int): set<int> {
    set o | o in offsets && o > frontier
  }

  /** `mark_acknowledged`: prune what the frontier passed, inspecting one offset more than it prunes. */
  ghost function MarkAcknowledged(delivered: Offsets, acknowledged: map<TopicPartition, int>,
                                  key: TopicPartition, frontier: int): Marked
  {
    if key in acknowledged && frontier <= acknowledged[key] then Marked(delivered, acknowledged, 0)
    else if key !in delivered then Marked(delivered, acknowledged[key := frontier], 0)
    else
      var kept := Above(delivered[key], frontier);
      Marked(if kept == {} then delivered - {key} else delivered[key := kept],
             acknowledged[key := frontier],
             |delivered[key] - kept| + if kept == {} then 0 else 1)
  }

  ghost function Mark(s: Stream, key: TopicPartition, frontier: int): Stream {
    var m := MarkAcknowledged(s.delivered, s.acknowledged, key, frontier);
    s.(delivered := m.delivered, acknowledged := m.acknowledged)
  }

  // ---------- one iteration ----------

  function PointOf(d: Decision): Point {
    (d.record.Key(), d.record.offset)
  }

  function Note(delivered: Offsets, decisions: seq<Decision>): Offsets {
    if decisions == [] then delivered
    else
      var before := Note(delivered, decisions[..|decisions| - 1]);
      var d := decisions[|decisions| - 1];
      if d.Filter? then before
      else before[d.record.Key() := DeliveredOf(before, d.record.Key()) + {d.record.offset}]
  }

  /** Register the complete visible batch, stopping at the first record over the cap. */
  ghost function RegisterAll(table: Table, decisions: seq<Decision>): TableOutcome {
    if decisions == [] then TableOutcome(true, table)
    else
      var before := RegisterAll(table, decisions[..|decisions| - 1]);
      var d := decisions[|decisions| - 1];
      if before.ok then SessionDeliver(before.table, d.record.Key(), d.record.offset) else before
  }

  function Filtered(decisions: seq<Decision>): seq<Point> {
    if decisions == [] then []
    else
      var before := Filtered(decisions[..|decisions| - 1]);
      var d := decisions[|decisions| - 1];
      if d.Filter? then before + [PointOf(d)] else before
  }

  datatype Acknowledged = Acknowledged(ok: bool, stream: Stream)

  ghost function AckOne(s: Stream, p: Point): Acknowledged {
    var r := SessionAck(s.table, p.0, p.1);
    var s' := s.(table := r.table);
    if !r.ok then Acknowledged(false, s')
    else if Frontier(r.table, p.0).Some? then
      Acknowledged(true, Mark(s', p.0, Frontier(r.table, p.0).value))
    else Acknowledged(true, s')
  }

  ghost function AckAll(s: Stream, acks: seq<Point>): Acknowledged {
    if acks == [] then Acknowledged(true, s)
    else
      var before := AckAll(s, acks[..|acks| - 1]);
      if before.ok then AckOne(before.stream, acks[|acks| - 1]) else before
  }

  datatype Event =
    | Poll(decisions: seq<Decision>, owned: set<TopicPartition>, accepted: bool)
    | ClientAck(key: TopicPartition, offset: I64, owned: set<TopicPartition>, accepted: bool)

  datatype State = Running(stream: Stream) | Stopped(reason: StopReason)

  datatype StopReason = TooManyUnacked | AckRejected | AckUntracked | CommitFailed

  datatype StepResult = StepResult(state: State, sent: map<TopicPartition, int>)

  ghost function AckAndCommit(s: Stream, acks: seq<Point>, e: Event): StepResult {
    var a := AckAll(s, acks);
    if !a.ok then StepResult(Stopped(AckUntracked), map[])
    else if acks == [] then StepResult(Running(a.stream), map[])
    else
      var c := Commit(a.stream.table, e.owned, e.accepted);
      StepResult(if c.ok then Running(a.stream.(table := c.table)) else Stopped(CommitFailed), c.sent)
  }

  datatype Intake = Proceed(stream: Stream, acks: seq<Point>) | Halt(reason: StopReason)

  /** The first half of an iteration: take the frame or the poll, register every delivery. */
  ghost function TakeIn(s: Stream, e: Event): Intake {
    match e
    case Poll(decisions, _, _) =>
      var r := RegisterAll(s.table, decisions);
      if !r.ok then Halt(TooManyUnacked)
      else Proceed(Stream(r.table, Note(s.delivered, decisions), s.acknowledged), Filtered(decisions))
    case ClientAck(key, offset, _, _) =>
      match ValidateAck(s, key, offset)
      case Advance => Proceed(s, [(key, offset)])
      case Duplicate => Proceed(s, [])
      case NotDelivered => Halt(AckRejected)
  }

  ghost function Step(s: Stream, e: Event): StepResult {
    match TakeIn(s, e)
    case Proceed(s1, acks) => AckAndCommit(s1, acks, e)
    case Halt(reason) => StepResult(Stopped(reason), map[])
  }

  /** The state and the commit of the last event of a run. */
  ghost function Run(events: seq<Event>): StepResult {
    if events == [] then StepResult(Running(Start), map[])
    else
      var before := Run(events[..|events| - 1]);
      if before.state.Running? then Step(before.state.stream, events[|events| - 1])
      else StepResult(before.state, map[])
  }

  // ---------- what the run's events said, apart from any tracker ----------

  function Seen(decisions: seq<Decision>): set<Point> {
    set i | 0 <= i < |decisions| :: PointOf(decisions[i])
  }

  function SeenFiltered(decisions: seq<Decision>): set<Point> {
    set i | 0 <= i < |decisions| && decisions[i].Filter? :: PointOf(decisions[i])
  }

  function PolledBy(e: Event): set<Point> {
    match e
    case Poll(ds, _, _) => Seen(ds)
    case ClientAck(_, _, _, _) => {}
  }

  function AnsweredBy(e: Event): set<Point> {
    match e
    case Poll(ds, _, _) => SeenFiltered(ds)
    case ClientAck(key, offset, _, _) => {(key, offset)}
  }

  /** Records the run polled. */
  function Polled(events: seq<Event>): set<Point> {
    if events == [] then {}
    else Polled(events[..|events| - 1]) + PolledBy(events[|events| - 1])
  }

  /** Records the run filtered out or the client acknowledged. */
  function Answered(events: seq<Event>): set<Point> {
    if events == [] then {}
    else Answered(events[..|events| - 1]) + AnsweredBy(events[|events| - 1])
  }

  // ---------- what the maps and the tracker agree on ----------

  /** The session can take an acknowledgement of `p`: it is outstanding or already settled. */
  ghost predicate Covered(table: Table, p: Point) {
    || p.0.1 < 0 || p.1 < 0
    || (p.0 in table && table[p.0].frontier.Some?
        && (p.1 <= table[p.0].frontier.value || p.1 in table[p.0].delivered))
  }

  /** The stream's maps know nothing of `key` that the session's tracker does not. */
  ghost predicate Agrees(s: Stream, key: TopicPartition) {
    && (forall o | o in DeliveredOf(s.delivered, key) :: Covered(s.table, (key, o)))
    && (key in s.acknowledged ==> Frontier(s.table, key) == Some(s.acknowledged[key]))
  }

  // ---------- registration ----------

  lemma SeenLast(decisions: seq<Decision>)
    requires decisions != []
    ensures Seen(decisions) == Seen(decisions[..|decisions| - 1]) + {PointOf(decisions[|decisions| - 1])}
  {
    var init := decisions[..|decisions| - 1];
    forall p | p in Seen(decisions) ensures p in Seen(init) + {PointOf(decisions[|decisions| - 1])} {
      var i :| 0 <= i < |decisions| && PointOf(decisions[i]) == p;
      if i < |init| { assert init[i] == decisions[i]; }
    }
    forall p | p in Seen(init) ensures p in Seen(decisions) {
      var i :| 0 <= i < |init| && PointOf(init[i]) == p;
      assert decisions[i] == init[i];
    }
  }

  lemma {:induction false} RegisterKeepsValid(table: Table, decisions: seq<Decision>)
    requires ValidTable(table)
    ensures ValidTable(RegisterAll(table, decisions).table)
  {
    if decisions != [] {
      var d := decisions[|decisions| - 1];
      RegisterKeepsValid(table, decisions[..|decisions| - 1]);
      DeliverKeepsValidTable(RegisterAll(table, decisions[..|decisions| - 1]).table, d.record.Key(), d.record.offset);
    }
  }

  lemma DeliverCovers(table: Table, p: Point, q: Point)
    requires ValidTable(table) && SessionDeliver(table, p.0, p.1).ok && p.1 <= I64_MAX
    requires p == q || Covered(table, q)
    ensures Covered(SessionDeliver(table, p.0, p.1).table, q)
  {
    if p.0.1 >= 0 && p.1 >= 0 {
      DeliveryKeepsValid(TrackerOf(table, p.0), p.1);
    }
  }

  /** A registered batch covers all its records, keeps what was covered and moves no frontier. */
  lemma {:induction false} RegisterCovers(table: Table, decisions: seq<Decision>, q: Point)
    requires ValidTable(table) && RegisterAll(table, decisions).ok
    ensures q in Seen(decisions) || Covered(table, q) ==> Covered(RegisterAll(table, decisions).table, q)
    ensures q.0 in table ==> Frontier(RegisterAll(table, decisions).table, q.0) == Frontier(table, q.0)
  {
    if decisions != [] {
      var init := decisions[..|decisions| - 1];
      var p := PointOf(decisions[|decisions| - 1]);
      RegisterCovers(table, init, q);
      RegisterKeepsValid(table, init);
      SeenLast(decisions);
      if q == p || Covered(RegisterAll(table, init).table, q) {
        DeliverCovers(RegisterAll(table, init).table, p, q);
      }
    }
  }

  lemma {:induction false} NoteAddsSeen(delivered: Offsets, decisions: seq<Decision>, key: TopicPartition, o: int)
    requires o in DeliveredOf(Note(delivered, decisions), key)
    ensures o in DeliveredOf(delivered, key) || (key, o) in Seen(decisions)
  {
    if decisions != [] {
      var init := decisions[..|decisions| - 1];
      SeenLast(decisions);
      if o in DeliveredOf(Note(delivered, init), key) {
        NoteAddsSeen(delivered, init, key, o);
      }
    }
  }

  // ---------- acknowledgements ----------

  lemma MarkPrunes(s: Stream, key: TopicPartition, frontier: int, other: TopicPartition)
    ensures DeliveredOf(Mark(s, key, frontier).delivered, other) <= DeliveredOf(s.delivered, other)
    ensures other != key ==> (other in Mark(s, key, frontier).acknowledged <==> other in s.acknowledged)
    ensures other != key && other in s.acknowledged ==>
      Mark(s, key, frontier).acknowledged[other] == s.acknowledged[other]
  {
  }

  lemma AckCovers(table: Table, p: Point, q: Point)
    requires ValidTable(table) && Covered(table, q) && p.1 <= I64_MAX
    ensures Covered(SessionAck(table, p.0, p.1).table, q)
  {
    if p.0.1 >= 0 && p.1 >= 0 && q.0 == p.0 && q.1 >= 0 {
      var t := table[p.0];
      AckKeepsValid(t, p.1);
      if p.1 in t.delivered && p.1 > t.frontier.value && q.1 in t.delivered {
        var t1 := t.(pending := t.pending + {p.1});
        if q.1 !in Drained(t1).delivered {
          assert q.1 in t1.delivered - Drained(t1).delivered;
        }
      }
    }
  }

  /** One acknowledgement that succeeds keeps every agreement. */
  lemma AckOneAgrees(s: Stream, p: Point, key: TopicPartition)
    requires ValidTable(s.table) && p.1 <= I64_MAX
    requires AckOne(s, p).ok
    ensures ValidTable(AckOne(s, p).stream.table)
    ensures DeliveredOf(AckOne(s, p).stream.delivered, key) <= DeliveredOf(s.delivered, key)
    ensures Agrees(s, key) ==> Agrees(AckOne(s, p).stream, key)
    ensures p.0.1 >= 0 && p.1 >= 0 ==> p.0 in AckOne(s, p).stream.table
  {
    var r := SessionAck(s.table, p.0, p.1);
    var s1 := s.(table := r.table);
    AckKeepsValidTable(s.table, p.0, p.1);
    if p.0.1 >= 0 && p.1 >= 0 { AckKeepsValid(TrackerOf(s.table, p.0), p.1); }
    if Frontier(r.table, p.0).Some? {
      MarkPrunes(s1, p.0, Frontier(r.table, p.0).value, key);
    }
    if Agrees(s, key) {
      forall o | o in DeliveredOf(s.delivered, key) ensures Covered(r.table, (key, o)) {
        AckCovers(s.table, p, (key, o));
      }
    }
  }

  lemma CoveredAckSucceeds(table: Table, p: Point)
    requires ValidTable(table) && Covered(table, p) && p.1 <= I64_MAX
    ensures SessionAck(table, p.0, p.1).ok
  {
    if p.0.1 >= 0 && p.1 >= 0 { AckKeepsValid(table[p.0], p.1); }
  }

  lemma {:induction false} AckAllAgrees(s: Stream, acks: seq<Point>, key: TopicPartition)
    requires ValidTable(s.table)
    requires forall i | 0 <= i < |acks| :: acks[i].1 <= I64_MAX
    requires AckAll(s, acks).ok
    ensures ValidTable(AckAll(s, acks).stream.table)
    ensures DeliveredOf(AckAll(s, acks).stream.delivered, key) <= DeliveredOf(s.delivered, key)
    ensures Agrees(s, key) ==> Agrees(AckAll(s, acks).stream, key)
  {
    if acks != [] {
      var init := acks[..|acks| - 1];
      AckAllAgrees(s, init, key);
      AckOneAgrees(AckAll(s, init).stream, acks[|acks| - 1], key);
    }
  }

  lemma {:induction false} CoveredAcksSucceed(s: Stream, acks: seq<Point>, q: Point)
    requires ValidTable(s.table)
    requires forall i | 0 <= i < |acks| :: acks[i].1 <= I64_MAX && Covered(s.table, acks[i])
    requires Covered(s.table, q)
    ensures AckAll(s, acks).ok && Covered(AckAll(s, acks).stream.table, q)
  {
    if acks != [] {
      var init, p := acks[..|acks| - 1], acks[|acks| - 1];
      CoveredAcksSucceed(s, init, p);
      CoveredAcksSucceed(s, init, q);
      AckAllAgrees(s, init, p.0);
      CoveredAckSucceeds(AckAll(s, init).stream.table, p);
      AckCovers(AckAll(s, init).stream.table, p, q);
    }
  }

  lemma {:induction false} FilteredAreSeen(decisions: seq<Decision>, i: nat)
    requires i < |Filtered(decisions)|
    ensures Filtered(decisions)[i] in Seen(decisions) * SeenFiltered(decisions)
    ensures Filtered(decisions)[i].1 <= I64_MAX
  {
    var n := |decisions| - 1;
    var init := decisions[..n];
    SeenLast(decisions);
    if i < |Filtered(init)| {
      FilteredAreSeen(init, i);
      var j :| 0 <= j < |init| && init[j].Filter? && PointOf(init[j]) == Filtered(init)[i];
      assert decisions[j] == init[j];
    } else {
      assert decisions[n].Filter?;
    }
  }

  // ---------- commits ----------

  /** Marking a tracker committed at its own frontier touches nothing else. */
  lemma MarkingKeeps(t: Tracker)
    requires Valid(t) && CommitValue(t).Some?
    ensures var next := CommitValue(t).value;
      && Valid(Committed(t, next)) && SameProgress(t, Committed(t, next)) && Committed(t, next).committed == t.frontier
      && t.frontier.Some? && t.frontier.value < I64_MAX && next == t.frontier.value + 1
      && t.committed.Some? && t.committed.value < t.frontier.value
  {
  }

  lemma MarkingAllKeeps(table: Table)
    requires ValidTable(table)
    ensures ValidTable(MarkedCommitted(table, AckedOffsets(table)))
  {
    hide Valid, CommitValue, Committed;
    var marked := MarkedCommitted(table, AckedOffsets(table));
    forall k | k in marked ensures Valid(marked[k]) && marked[k].frontier.Some? && k.1 >= 0 {
      if CommitValue(table[k]).Some? { MarkingKeeps(table[k]); }
    }
  }

  lemma CommitKeeps(table: Table, owned: set<TopicPartition>, accepted: bool, key: TopicPartition)
    requires ValidTable(table)
    ensures var c := Commit(table, owned, accepted);
      && ValidTable(c.table)
      && (key in c.sent ==>
            && key in table && key in owned && table[key].frontier.value < I64_MAX
            && c.sent[key] == table[key].frontier.value + 1
            && table[key].committed.value < table[key].frontier.value)
      && (key in owned ==>
            && (key in c.table <==> key in table)
            && (key in table ==> SameProgress(table[key], c.table[key])))
      && (c.ok && key in c.sent ==> c.table[key].committed == c.table[key].frontier)
  {
    hide Valid, CommitValue, Committed;
    MarkingAllKeeps(Retained(table, owned));
    if key in table && CommitValue(table[key]).Some? { MarkingKeeps(table[key]); }
  }

  /**
   What a commit sends, keeps and marks, and what the broker's answer changes: a refused commit
   fails and marks nothing.
   */
  lemma CommitIsExact(table: Table, owned: set<TopicPartition>, accepted: bool, key: TopicPartition)
    requires ValidTable(table)
    ensures var c := Commit(table, owned, accepted);
      && (c.ok <==> c.sent == map[] || accepted)
      && (key in c.sent <==>
            && key in table && key in owned && table[key].frontier != table[key].committed
            && table[key].frontier.value < I64_MAX)
      && (key in c.table <==> key in table && key in owned)
      && (key in c.table ==>
            c.table[key] == if c.ok && key in c.sent then table[key].(committed := table[key].frontier) else table[key])
  {
    hide Valid;
    if key in table && CommitValue(table[key]).Some? { MarkingKeeps(table[key]); }
  }

  /** `t'` differs from `t` in nothing but a later commit. */
  ghost predicate SameProgress(t: Tracker, t': Tracker) {
    && t' == t.(committed := t'.committed)
    && (t.committed.Some? ==> t'.committed.Some? && t.committed.value <= t'.committed.value)
  }

  // ---------- whole runs ----------

  /** What holds of `key` at every loop head of every run. */
  ghost predicate Sound(s: Stream, key: TopicPartition, polled: set<Point>) {
    && ValidTable(s.table)
    && forall o | o in DeliveredOf(s.delivered, key) :: (key, o) in polled
  }

  lemma TakeInKeeps(s: Stream, e: Event, key: TopicPartition, polled: set<Point>)
    requires Sound(s, key, polled) && TakeIn(s, e).Proceed?
    ensures var Proceed(s1, acks) := TakeIn(s, e);
      && Sound(s1, key, polled + PolledBy(e))
      && (Agrees(s, key) ==> Agrees(s1, key))
  {
    var Proceed(s1, acks) := TakeIn(s, e);
    if e.Poll? {
      var ds := e.decisions;
      RegisterKeepsValid(s.table, ds);
      forall o | o in DeliveredOf(s1.delivered, key)
        ensures (key, o) in polled + Seen(ds)
        ensures Agrees(s, key) ==> Covered(s1.table, (key, o))
      {
        NoteAddsSeen(s.delivered, ds, key, o);
        RegisterCovers(s.table, ds, (key, o));
      }
      RegisterCovers(s.table, ds, (key, 0));
    }
  }

  /** The acknowledgements of an iteration are answers it was given, of records that were polled. */
  lemma AcksAreAnswers(s: Stream, e: Event, key: TopicPartition, polled: set<Point>, i: nat)
    requires Sound(s, key, polled) && TakeIn(s, e).Proceed? && i < |TakeIn(s, e).acks|
    ensures var p := TakeIn(s, e).acks[i];
      p.1 <= I64_MAX && p in AnsweredBy(e) && (p.0 == key ==> p in polled + PolledBy(e))
  {
    if e.Poll? { FilteredAreSeen(e.decisions, i); }
  }

  lemma AcksAreInRange(s: Stream, e: Event)
    requires TakeIn(s, e).Proceed?
    ensures forall i | 0 <= i < |TakeIn(s, e).acks| :: TakeIn(s, e).acks[i].1 <= I64_MAX
  {
    if e.Poll? {
      forall i | 0 <= i < |TakeIn(s, e).acks| ensures TakeIn(s, e).acks[i].1 <= I64_MAX {
        FilteredAreSeen(e.decisions, i);
      }
    }
  }

  /** The table an iteration is about to commit. */
  ghost function Ready(s: Stream, e: Event): Table
    requires TakeIn(s, e).Proceed?
  {
    AckAll(TakeIn(s, e).stream, TakeIn(s, e).acks).stream.table
  }

  ghost predicate Commits(s: Stream, e: Event) {
    && TakeIn(s, e).Proceed? && TakeIn(s, e).acks != []
    && AckAll(TakeIn(s, e).stream, TakeIn(s, e).acks).ok
  }

  /** The iteration's commit finds `key` not owned, and drops whatever tracker it has. */
  ghost predicate Drops(s: Stream, e: Event, key: TopicPartition) {
    Commits(s, e) && key !in e.owned
  }

  /** The iteration drops a tracker that is there. */
  ghost predicate Forgets(s: Stream, e: Event, key: TopicPartition) {
    Drops(s, e, key) && key in Ready(s, e)
  }

  /** No tracker of `key` has been dropped; a partition may have been assigned at any time. */
  ghost predicate NeverForgotten(events: seq<Event>, key: TopicPartition) {
    forall i | 0 <= i < |events| && Run(events[..i]).state.Running? ::
      !Forgets(Run(events[..i]).state.stream, events[i], key)
  }

  lemma CommitAgrees(s: Stream, e: Event, key: TopicPartition)
    requires ValidTable(s.table) && (key in e.owned || key !in s.table) && Agrees(s, key)
    ensures Agrees(s.(table := Commit(s.table, e.owned, e.accepted).table), key)
  {
    CommitKeeps(s.table, e.owned, e.accepted, key);
    var table' := Commit(s.table, e.owned, e.accepted).table;
    forall o ensures Covered(s.table, (key, o)) ==> Covered(table', (key, o)) {}
  }

  lemma StepKeeps(s: Stream, e: Event, key: TopicPartition, polled: set<Point>)
    requires Sound(s, key, polled) && Step(s, e).state.Running?
    ensures Sound(Step(s, e).state.stream, key, polled + PolledBy(e))
    ensures Agrees(s, key) && !Forgets(s, e, key) ==> Agrees(Step(s, e).state.stream, key)
  {
    hide Valid, AckAll, Commit;
    TakeInKeeps(s, e, key, polled);
    AcksAreInRange(s, e);
    var Proceed(s1, acks) := TakeIn(s, e);
    AckAllAgrees(s1, acks, key);
    var a := AckAll(s1, acks).stream;
    CommitKeeps(a.table, e.owned, e.accepted, key);
    if acks != [] && Agrees(s, key) && !Forgets(s, e, key) {
      CommitAgrees(a, e, key);
    }
  }

  lemma PrefixIsNeverForgotten(events: seq<Event>, key: TopicPartition)
    requires events != [] && NeverForgotten(events, key)
    ensures NeverForgotten(events[..|events| - 1], key)
  {
    var init := events[..|events| - 1];
    forall i | 0 <= i < |init| && Run(init[..i]).state.Running?
      ensures !Forgets(Run(init[..i]).state.stream, init[i], key)
    {
      assert init[..i] == events[..i];
    }
  }

  /**
   At every loop head of every run the table is valid and the stream's delivered map holds
   polled records only; until a tracker of the partition is dropped, the stream's maps and the
   session's tracker agree.
   */
  lemma {:induction false} RunKeeps(events: seq<Event>, key: TopicPartition)
    requires Run(events).state.Running?
    ensures Sound(Run(events).state.stream, key, Polled(events))
    ensures NeverForgotten(events, key) ==> Agrees(Run(events).state.stream, key)
  {
    if events != [] {
      var n := |events| - 1;
      var init, e := events[..n], events[n];
      RunKeeps(init, key);
      StepKeeps(Run(init).state.stream, e, key, Polled(init));
      if NeverForgotten(events, key) {
        PrefixIsNeverForgotten(events, key);
        assert events[..n] == init && !Forgets(Run(events[..n]).state.stream, events[n], key);
      }
    }
  }

  lemma FilteredAcksSucceed(s: Stream, e: Event)
    requires ValidTable(s.table) && e.Poll? && TakeIn(s, e).Proceed?
    ensures AckAll(TakeIn(s, e).stream, TakeIn(s, e).acks).ok
  {
    var Proceed(s1, acks) := TakeIn(s, e);
    RegisterKeepsValid(s.table, e.decisions);
    forall i | 0 <= i < |acks| ensures acks[i].1 <= I64_MAX && Covered(s1.table, acks[i]) {
      FilteredAreSeen(e.decisions, i);
      RegisterCovers(s.table, e.decisions, acks[i]);
    }
    CoveredAcksSucceed(s1, acks, (("", -1), 0));
  }

  lemma ClientAckSucceeds(s: Stream, e: Event)
    requires ValidTable(s.table) && e.ClientAck? && Agrees(s, e.key) && TakeIn(s, e).Proceed?
    ensures AckAll(TakeIn(s, e).stream, TakeIn(s, e).acks).ok
  {
    var Proceed(s1, acks) := TakeIn(s, e);
    if acks != [] {
      CoveredAcksSucceed(s1, acks, acks[0]);
    }
  }

  lemma AckedStepIsTracked(s: Stream, e: Event)
    requires TakeIn(s, e).Proceed? ==> AckAll(TakeIn(s, e).stream, TakeIn(s, e).acks).ok
    ensures Step(s, e).state != Stopped(AckUntracked)
  {
  }

  /**
   Tracker agreement: until a tracker of its partition is dropped, the stream never stops
   because the session does not know an acknowledgement that `validate_ack` let through; and
   it never stops for one of a filtered record.
   */
  lemma AcceptedAcksAreTracked(events: seq<Event>)
    requires events != [] && Run(events[..|events| - 1]).state.Running?
    requires events[|events| - 1].ClientAck? ==>
               NeverForgotten(events[..|events| - 1], events[|events| - 1].key)
    ensures Run(events).state != Stopped(AckUntracked)
  {
    var init, e := events[..|events| - 1], events[|events| - 1];
    var s := Run(init).state.stream;
    RunKeeps(init, if e.ClientAck? then e.key else ("", 0));
    assert TakeIn(s, e).Proceed? ==> AckAll(TakeIn(s, e).stream, TakeIn(s, e).acks).ok by {
      if TakeIn(s, e).Proceed? {
        if e.Poll? { FilteredAcksSucceed(s, e); } else { ClientAckSucceeds(s, e); }
      }
    }
    AckedStepIsTracked(s, e);
  }

  // ---------- frontiers and commits only move forward ----------

  ghost predicate Forward(table: Table, table': Table, key: TopicPartition) {
    key in table ==> key in table' && Advances(table[key], table'[key])
  }

  lemma {:induction false} RegisterForward(table: Table, decisions: seq<Decision>, key: TopicPartition)
    requires ValidTable(table)
    ensures Forward(table, RegisterAll(table, decisions).table, key)
  {
    if decisions != [] {
      var init, d := decisions[..|decisions| - 1], decisions[|decisions| - 1];
      RegisterForward(table, init, key);
      RegisterKeepsValid(table, init);
      DeliveryKeepsValid(TrackerOf(RegisterAll(table, init).table, d.record.Key()),
                         if d.record.offset < 0 then 0 else d.record.offset);
    }
  }

  lemma {:induction false} AckAllForward(s: Stream, acks: seq<Point>, key: TopicPartition)
    requires ValidTable(s.table) && AckAll(s, acks).ok
    requires forall i | 0 <= i < |acks| :: acks[i].1 <= I64_MAX
    ensures Forward(s.table, AckAll(s, acks).stream.table, key)
  {
    if acks != [] {
      var init, p := acks[..|acks| - 1], acks[|acks| - 1];
      AckAllForward(s, init, key);
      AckAllAgrees(s, init, key);
      AckKeepsValid(TrackerOf(AckAll(s, init).stream.table, p.0), if p.1 < 0 then 0 else p.1);
    }
  }

  /** The table when the iteration's acknowledgements are in and nothing is committed yet. */
  lemma BeforeCommit(s: Stream, e: Event, key: TopicPartition, polled: set<Point>)
    requires Sound(s, key, polled) && TakeIn(s, e).Proceed?
    requires AckAll(TakeIn(s, e).stream, TakeIn(s, e).acks).ok
    ensures ValidTable(Ready(s, e)) && Forward(s.table, Ready(s, e), key)
  {
    var Proceed(s1, acks) := TakeIn(s, e);
    TakeInKeeps(s, e, key, polled);
    AcksAreInRange(s, e);
    if e.Poll? { RegisterForward(s.table, e.decisions, key); }
    AckAllForward(s1, acks, key);
    AckAllAgrees(s1, acks, key);
  }

  /** An iteration that does not drop `key` moves its frontier and commit forward only. */
  lemma StepForward(s: Stream, e: Event, key: TopicPartition, polled: set<Point>)
    requires Sound(s, key, polled) && Step(s, e).state.Running? && !Drops(s, e, key)
    ensures Forward(s.table, Step(s, e).state.stream.table, key)
    ensures key in Step(s, e).sent ==>
      && key in Step(s, e).state.stream.table
      && Step(s, e).state.stream.table[key].committed == Some(Step(s, e).sent[key] - 1)
  {
    BeforeCommit(s, e, key, polled);
    CommitKeeps(Ready(s, e), e.owned, e.accepted, key);
  }

  lemma SentIsNew(s: Stream, e: Event, key: TopicPartition, polled: set<Point>)
    requires Sound(s, key, polled) && key in Step(s, e).sent
    ensures Step(s, e).sent[key] <= I64_MAX
    ensures key in s.table ==> s.table[key].committed.Some? && s.table[key].committed.value + 1 < Step(s, e).sent[key]
  {
    BeforeCommit(s, e, key, polled);
    CommitKeeps(Ready(s, e), e.owned, e.accepted, key);
  }
}
