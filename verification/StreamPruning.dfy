/**
 The cost of pruning the stream's delivered map (`mark_acknowledged` in streaming.rs): a run of
 the Subscribe loop is a list of insertions and prunings, and the offsets it inspects are paid
 for by the offsets it inserts.
 */
module StreamPruning {
  import opened Wrappers
  import opened Records
  import opened Subscribe

  // ---------- the maps as operations ----------

  datatype MapOp = Insert(key: TopicPartition, offset: int) | Prune(key: TopicPartition, frontier: int)

  ghost function Points(delivered: Offsets): set<Point> {
    set k, o | k in delivered && o in delivered[k] :: (k, o)
  }

  ghost function Inserted(delivered: Offsets, key: TopicPartition, offset: int): Offsets {
    delivered[key := DeliveredOf(delivered, key) + {offset}]
  }

  /** The maps after `ops`, with the offsets inspected so far. */
  ghost function Maintain(ops: seq<MapOp>): Marked {
    if ops == [] then Marked(map[], map[], 0)
    else
      var m := Maintain(ops[..|ops| - 1]);
      match ops[|ops| - 1]
      case Insert(key, offset) => m.(delivered := Inserted(m.delivered, key, offset))
      case Prune(key, frontier) =>
        var r := MarkAcknowledged(m.delivered, m.acknowledged, key, frontier);
        r.(inspected := m.inspected + r.inspected)
  }

  ghost function Insertions(ops: seq<MapOp>): nat {
    if ops == [] then 0
    else Insertions(ops[..|ops| - 1]) + if ops[|ops| - 1].Insert? then 1 else 0
  }

  /** Calls whose frontier was above the acknowledged value they found. */
  ghost function Advancing(ops: seq<MapOp>): nat {
    if ops == [] then 0
    else
      var m := Maintain(ops[..|ops| - 1]);
      Advancing(ops[..|ops| - 1]) +
      match ops[|ops| - 1]
      case Insert(_, _) => 0
      case Prune(key, f) => if key in m.acknowledged && f <= m.acknowledged[key] then 0 else 1
  }

  lemma InsertGrowsByOne(delivered: Offsets, key: TopicPartition, offset: int)
    ensures |Points(Inserted(delivered, key, offset))| <= |Points(delivered)| + 1
  {
    var after := Inserted(delivered, key, offset);
    forall p | p in Points(after) ensures p in Points(delivered) + {(key, offset)} {
      if p.0 == key && p.1 != offset { assert p.1 in DeliveredOf(delivered, key); }
    }
    SubsetSize(Points(after), Points(delivered) + {(key, offset)});
  }

  ghost function PointsOf(key: TopicPartition, offsets: set<int>): set<Point> {
    set o | o in offsets :: (key, o)
  }

  lemma {:induction false} PointsOfSize(key: TopicPartition, offsets: set<int>)
    ensures |PointsOf(key, offsets)| == |offsets|
    decreases |offsets|
  {
    if offsets != {} {
      var o := First(offsets);
      var rest := offsets - {o};
      PointsOfSize(key, rest);
      assert PointsOf(key, offsets) == PointsOf(key, rest) + {(key, o)};
    }
  }

  lemma PrunedPoints(delivered: Offsets, key: TopicPartition, frontier: int)
    requires key in delivered
    ensures var kept := Above(delivered[key], frontier);
            var after := if kept == {} then delivered - {key} else delivered[key := kept];
      Points(after) == Points(delivered) - PointsOf(key, delivered[key] - kept)
  {
    var kept := Above(delivered[key], frontier);
    var after := if kept == {} then delivered - {key} else delivered[key := kept];
    var gone := PointsOf(key, delivered[key] - kept);
    forall p ensures p in Points(after) <==> p in Points(delivered) && p !in gone {
      if p.0 == key {
        assert p in Points(after) <==> p.1 in kept;
        assert p in gone <==> p.1 in delivered[key] - kept;
      }
    }
  }

  /** Pruning removes exactly the key's offsets at or below the frontier, and inspects one more at most. */
  lemma PruneIsExact(delivered: Offsets, acknowledged: map<TopicPartition, int>, key: TopicPartition, frontier: int)
    requires key !in acknowledged || acknowledged[key] < frontier
    ensures var m := MarkAcknowledged(delivered, acknowledged, key, frontier);
            var gone := DeliveredOf(delivered, key) - Above(DeliveredOf(delivered, key), frontier);
      && Points(m.delivered) == Points(delivered) - PointsOf(key, gone)
      && |Points(m.delivered)| + m.inspected <= |Points(delivered)| + 1
  {
    var m := MarkAcknowledged(delivered, acknowledged, key, frontier);
    if key in delivered {
      PrunedPoints(delivered, key, frontier);
      var offsets := delivered[key] - Above(delivered[key], frontier);
      var gone := PointsOf(key, offsets);
      forall p | p in gone ensures p in Points(delivered) { assert p.0 == key && p.1 in delivered[key]; }
      Removed(Points(delivered), Points(m.delivered), gone);
      PointsOfSize(key, offsets);
    } else {
      assert PointsOf(key, {}) == {};
    }
  }

  lemma Removed(all: set<Point>, rest: set<Point>, gone: set<Point>)
    requires gone <= all && rest == all - gone
    ensures |all| == |rest| + |gone|
  {
    assert all == rest + gone;
  }

  /** Over any operations, inspections and what is still held never exceed insertions plus advancing calls. */
  lemma {:induction false} OperationsAreAmortised(ops: seq<MapOp>)
    ensures Maintain(ops).inspected + |Points(Maintain(ops).delivered)| <= Insertions(ops) + Advancing(ops)
  {
    if ops == [] {
      assert Points(map[]) == {};
    } else {
      var init := ops[..|ops| - 1];
      var m := Maintain(init);
      OperationsAreAmortised(init);
      match ops[|ops| - 1]
      case Insert(key, offset) => InsertGrowsByOne(m.delivered, key, offset);
      case Prune(key, frontier) =>
        if key !in m.acknowledged || m.acknowledged[key] < frontier {
          PruneIsExact(m.delivered, m.acknowledged, key, frontier);
        }
    }
  }

  // ---------- the operations of a run ----------

  function InsertOps(decisions: seq<Decision>): seq<MapOp> {
    if decisions == [] then []
    else
      var d := decisions[|decisions| - 1];
      InsertOps(decisions[..|decisions| - 1]) + if d.Filter? then [] else [Insert(d.record.Key(), d.record.offset)]
  }

  /** The pruning call after one acknowledgement, if there is one. */
  ghost function PruneOps(s: Stream, p: Point): seq<MapOp> {
    var r := SessionAck(s.table, p.0, p.1);
    if r.ok && Frontier(r.table, p.0).Some? then [Prune(p.0, Frontier(r.table, p.0).value)] else []
  }

  ghost function AckOps(s: Stream, acks: seq<Point>): seq<MapOp> {
    if acks == [] then []
    else
      var before := AckAll(s, acks[..|acks| - 1]);
      AckOps(s, acks[..|acks| - 1]) + if before.ok then PruneOps(before.stream, acks[|acks| - 1]) else []
  }

  ghost function EventOps(s: Stream, e: Event): seq<MapOp> {
    (if e.Poll? then InsertOps(e.decisions) else []) +
    (if TakeIn(s, e).Proceed? then AckOps(TakeIn(s, e).stream, TakeIn(s, e).acks) else [])
  }

  ghost function OpsOf(events: seq<Event>): seq<MapOp> {
    if events == [] then []
    else
      var init := events[..|events| - 1];
      OpsOf(init) + if Run(init).state.Running? then EventOps(Run(init).state.stream, events[|events| - 1]) else []
  }

  // ---------- what the run inspects ----------

  /** Offsets `mark_acknowledged` inspects after one acknowledgement. */
  ghost function InspectedByOne(s: Stream, p: Point): nat {
    var r := SessionAck(s.table, p.0, p.1);
    if r.ok && Frontier(r.table, p.0).Some?
    then MarkAcknowledged(s.delivered, s.acknowledged, p.0, Frontier(r.table, p.0).value).inspected
    else 0
  }

  ghost function InspectedByAll(s: Stream, acks: seq<Point>): nat {
    if acks == [] then 0
    else
      var before := AckAll(s, acks[..|acks| - 1]);
      InspectedByAll(s, acks[..|acks| - 1]) + if before.ok then InspectedByOne(before.stream, acks[|acks| - 1]) else 0
  }

  /** Offsets one iteration inspects, even if it stops the stream. */
  ghost function InspectedBy(s: Stream, e: Event): nat {
    if TakeIn(s, e).Proceed? then InspectedByAll(TakeIn(s, e).stream, TakeIn(s, e).acks) else 0
  }

  /** Offsets inspected by a whole run, its last iteration included even if it stops the stream. */
  ghost function Inspected(events: seq<Event>): nat {
    if events == [] then 0
    else
      var init := events[..|events| - 1];
      Inspected(init) + if Run(init).state.Running? then InspectedBy(Run(init).state.stream, events[|events| - 1]) else 0
  }

  // ---------- a run is its operations ----------

  lemma MaintainOneMore(ops: seq<MapOp>, op: MapOp)
    ensures Maintain(ops + [op]) ==
      match op
      case Insert(key, offset) => Maintain(ops).(delivered := Inserted(Maintain(ops).delivered, key, offset))
      case Prune(key, frontier) =>
        var r := MarkAcknowledged(Maintain(ops).delivered, Maintain(ops).acknowledged, key, frontier);
        r.(inspected := Maintain(ops).inspected + r.inspected)
  {
    assert (ops + [op])[..|ops|] == ops;
  }

  lemma {:induction false} NotesAreInsertions(ops: seq<MapOp>, decisions: seq<Decision>)
    ensures Maintain(ops + InsertOps(decisions)) ==
            Maintain(ops).(delivered := Note(Maintain(ops).delivered, decisions))
  {
    if decisions == [] {
      assert ops + [] == ops;
    } else {
      var init, d := decisions[..|decisions| - 1], decisions[|decisions| - 1];
      NotesAreInsertions(ops, init);
      var before := ops + InsertOps(init);
      if d.Filter? {
        assert ops + InsertOps(decisions) == before;
      } else {
        assert ops + InsertOps(decisions) == before + [Insert(d.record.Key(), d.record.offset)];
        MaintainOneMore(before, Insert(d.record.Key(), d.record.offset));
      }
    }
  }

  /** The operations so far have left the stream's maps and inspected `n` offsets. */
  ghost predicate Leaves(ops: seq<MapOp>, s: Stream, n: nat) {
    Maintain(ops) == Marked(s.delivered, s.acknowledged, n)
  }

  lemma AckIsPruning(ops: seq<MapOp>, s: Stream, n: nat, p: Point)
    requires Leaves(ops, s, n)
    ensures Leaves(ops + PruneOps(s, p), AckOne(s, p).stream, n + InspectedByOne(s, p))
  {
    var r := SessionAck(s.table, p.0, p.1);
    if r.ok && Frontier(r.table, p.0).Some? {
      MaintainOneMore(ops, Prune(p.0, Frontier(r.table, p.0).value));
    } else {
      assert ops + PruneOps(s, p) == ops;
    }
  }

  lemma {:induction false} AcksArePrunings(ops: seq<MapOp>, s: Stream, n: nat, acks: seq<Point>)
    requires Leaves(ops, s, n)
    ensures Leaves(ops + AckOps(s, acks), AckAll(s, acks).stream, n + InspectedByAll(s, acks))
  {
    if acks == [] {
      assert ops + AckOps(s, acks) == ops;
    } else {
      var init, p := acks[..|acks| - 1], acks[|acks| - 1];
      var before := AckAll(s, init);
      AcksArePrunings(ops, s, n, init);
      if before.ok {
        AckIsPruning(ops + AckOps(s, init), before.stream, n + InspectedByAll(s, init), p);
        assert ops + AckOps(s, acks) == ops + AckOps(s, init) + PruneOps(before.stream, p);
      } else {
        assert ops + AckOps(s, acks) == ops + AckOps(s, init);
      }
    }
  }

  /** What the maps are when an iteration has taken its frame or poll in. */
  lemma TakeInIsInsertion(ops: seq<MapOp>, s: Stream, n: nat, e: Event)
    requires Leaves(ops, s, n) && TakeIn(s, e).Proceed?
    ensures Leaves(ops + if e.Poll? then InsertOps(e.decisions) else [], TakeIn(s, e).stream, n)
  {
    if e.Poll? { NotesAreInsertions(ops, e.decisions); } else { assert ops + [] == ops; }
  }

  lemma StepIsOperations(ops: seq<MapOp>, s: Stream, n: nat, e: Event)
    requires Leaves(ops, s, n) && TakeIn(s, e).Proceed?
    ensures var Proceed(s1, acks) := TakeIn(s, e);
      Leaves(ops + EventOps(s, e), AckAll(s1, acks).stream, n + InspectedByAll(s1, acks))
  {
    hide Maintain, TakeIn, AckAll, AckOps;
    var Proceed(s1, acks) := TakeIn(s, e);
    var noted := if e.Poll? then InsertOps(e.decisions) else [];
    TakeInIsInsertion(ops, s, n, e);
    AcksArePrunings(ops + noted, s1, n, acks);
    assert ops + EventOps(s, e) == ops + noted + AckOps(s1, acks);
  }

  /** A commit changes neither map. */
  lemma CommitKeepsMaps(s: Stream, e: Event)
    requires Step(s, e).state.Running?
    ensures var t, a := Step(s, e).state.stream, AckAll(TakeIn(s, e).stream, TakeIn(s, e).acks).stream;
      t.delivered == a.delivered && t.acknowledged == a.acknowledged
  {
  }

  lemma InsertionsInspectNothing(ops: seq<MapOp>, decisions: seq<Decision>)
    ensures Maintain(ops + InsertOps(decisions)).inspected == Maintain(ops).inspected
  {
    NotesAreInsertions(ops, decisions);
  }

  /** An iteration that stops before acknowledging anything inspects nothing. */
  lemma HaltedInspectsNothing(ops: seq<MapOp>, s: Stream, e: Event)
    requires !TakeIn(s, e).Proceed?
    ensures Maintain(ops + EventOps(s, e)).inspected == Maintain(ops).inspected && !Step(s, e).state.Running?
  {
    var noted := if e.Poll? then InsertOps(e.decisions) else [];
    assert EventOps(s, e) == noted && ops + [] == ops;
    if e.Poll? { InsertionsInspectNothing(ops, e.decisions); }
  }

  lemma LastIsOperations(ops: seq<MapOp>, s: Stream, n: nat, e: Event)
    requires Leaves(ops, s, n)
    ensures Maintain(ops + EventOps(s, e)).inspected == n + InspectedBy(s, e)
    ensures Step(s, e).state.Running? ==> Leaves(ops + EventOps(s, e), Step(s, e).state.stream, n + InspectedBy(s, e))
  {
    hide Maintain, EventOps, InspectedByAll;
    if TakeIn(s, e).Proceed? {
      StepIsOperations(ops, s, n, e);
      if Step(s, e).state.Running? { CommitKeepsMaps(s, e); }
    } else {
      HaltedInspectsNothing(ops, s, e);
    }
  }

  /** In every run the stream's maps are what its operations leave, and the offsets inspected are theirs. */
  lemma {:induction false} RunIsOperations(events: seq<Event>)
    ensures Maintain(OpsOf(events)).inspected == Inspected(events)
    ensures Run(events).state.Running? ==> Leaves(OpsOf(events), Run(events).state.stream, Inspected(events))
  {
    hide Step, EventOps, InspectedBy;
    if events != [] {
      var init, e := events[..|events| - 1], events[|events| - 1];
      RunIsOperations(init);
      if Run(init).state.Running? {
        LastIsOperations(OpsOf(init), Run(init).state.stream, Inspected(init), e);
      } else {
        assert OpsOf(events) == OpsOf(init);
      }
    }
  }

  /**
   Over every run of the loop, the offsets inspected and those still held are at most the
   insertions of the run plus its calls that moved an acknowledged value forward.
   */
  lemma PruningIsAmortised(events: seq<Event>)
    ensures Inspected(events) <= Insertions(OpsOf(events)) + Advancing(OpsOf(events))
    ensures Run(events).state.Running? ==>
      Inspected(events) + |Points(Run(events).state.stream.delivered)| <= Insertions(OpsOf(events)) + Advancing(OpsOf(events))
  {
    RunIsOperations(events);
    OperationsAreAmortised(OpsOf(events));
  }
}
