/**
 The objects behind `Subscribe`: the consume session that owns one tracker object per
 partition (consume.rs) and the Subscribe loop with its two maps (streaming.rs). Every method
 is proved against the corresponding function of `Subscribe`, so the run theorems there are
 theorems about these objects.
 */
module SubscribeLoop {
  import opened Wrappers
  import opened Records
  import AckFrontier
  import S = Subscribe

  class ConsumeSession {
    var ackTracker: map<TopicPartition, AckFrontier.PartitionAckState>
    ghost var keyOf: map<AckFrontier.PartitionAckState, TopicPartition>  // no two keys share a tracker

    ghost var table: S.Table  // the value of every tracker

    ghost predicate Owns()
      reads this
    {
      && ackTracker.Keys == table.Keys
      && forall k | k in ackTracker :: ackTracker[k] in keyOf && keyOf[ackTracker[k]] == k
    }

    ghost predicate Valid()
      reads this, keyOf.Keys
    {
      && Owns()
      && forall k | k in ackTracker :: ackTracker[k].Value() == table[k] && ackTracker[k].Consistent()
    }

    constructor ()
      ensures Valid() && table == map[] && keyOf == map[]
    {
      ackTracker := map[];
      keyOf := map[];
      table := map[];
    }

    /** `entry(key).or_default()`. */
    method Entry(key: TopicPartition)
      requires Valid()
      modifies this
      ensures Valid() && key in ackTracker
      ensures ackTracker[key] in old(keyOf) || fresh(ackTracker[key])
      ensures table == old(table)[key := S.TrackerOf(old(table), key)]
      ensures fresh(keyOf.Keys - old(keyOf.Keys))
    {
      if key in ackTracker {
        return;
      }
      var state := new AckFrontier.PartitionAckState();
      ackTracker := ackTracker[key := state];
      keyOf := keyOf[state := key];
      table := table[key := AckFrontier.Fresh];
    }

    /** `record_delivery` on the entry of `key`. */
    method DeliverTracked(key: TopicPartition, offset: I64) returns (ok: bool)
      requires Valid() && key in ackTracker && offset >= 0
      modifies this`table, ackTracker[key]
      ensures Valid()
      ensures var r := AckFrontier.RecordDelivery(old(table)[key], offset);
        ok == r.ok && table == old(table)[key := r.tracker]
    {
      ok := ackTracker[key].Deliver(offset);
      assert forall k | k in ackTracker && k != key :: ackTracker[k] != ackTracker[key];
      table := table[key := ackTracker[key].Value()];
    }

    method RecordDelivery(key: TopicPartition, offset: I64) returns (ok: bool)
      requires Valid()
      modifies this, keyOf.Keys
      ensures Valid() && fresh(keyOf.Keys - old(keyOf.Keys))
      ensures S.TableOutcome(ok, table) == S.SessionDeliver(old(table), key, offset)
    {
      if key.1 < 0 || offset < 0 {
        return true;
      }
      ghost var t := S.TrackerOf(table, key);
      Overwritten(table, key, t, AckFrontier.RecordDelivery(t, offset).tracker);
      Entry(key);
      ok := DeliverTracked(key, offset);
    }

    /** `record_ack` on the entry of `key`. */
    method AckTracked(key: TopicPartition, offset: I64) returns (ok: bool)
      requires Valid() && key in ackTracker && offset >= 0
      modifies this`table, ackTracker[key]
      ensures Valid()
      ensures var r := AckFrontier.RecordAck(old(table)[key], offset);
        ok == r.ok && table == old(table)[key := r.tracker]
    {
      ok := ackTracker[key].Acknowledge(offset);
      assert forall k | k in ackTracker && k != key :: ackTracker[k] != ackTracker[key];
      table := table[key := ackTracker[key].Value()];
    }

    method RecordAck(key: TopicPartition, offset: I64) returns (ok: bool)
      requires Valid()
      modifies this, keyOf.Keys
      ensures Valid() && fresh(keyOf.Keys - old(keyOf.Keys))
      ensures S.TableOutcome(ok, table) == S.SessionAck(old(table), key, offset)
    {
      if key.1 < 0 || offset < 0 {
        return true;
      }
      ghost var t := S.TrackerOf(table, key);
      Overwritten(table, key, t, AckFrontier.RecordAck(t, offset).tracker);
      Entry(key);
      ok := AckTracked(key, offset);
    }

    method AckedFrontier(key: TopicPartition) returns (frontier: Option<int>)
      requires Valid()
      ensures frontier == S.Frontier(table, key)
    {
      frontier := if key in ackTracker then ackTracker[key].frontier else None;
    }

    /** `owned` is the current assignment and `accepted` the broker's answer. */
    method CommitAcked(owned: set<TopicPartition>, accepted: bool)
      returns (ok: bool, sent: map<TopicPartition, int>)
      requires Valid()
      modifies this`ackTracker, this`table, keyOf.Keys
      ensures Valid()
      ensures S.CommitResult(ok, table, sent) == S.Commit(old(table), owned, accepted)
    {
      Retain(owned);
      sent := AckedOffsets();
      if sent == map[] {
        return true, sent;
      }
      if !accepted {
        return false, sent;
      }
      MarkCommitted(sent);
      ok := true;
    }

    method Retain(owned: set<TopicPartition>)
      requires Valid()
      modifies this`ackTracker, this`table
      ensures Valid() && table == S.Retained(old(table), owned)
    {
      ackTracker := map k | k in ackTracker && k in owned :: ackTracker[k];
      table := S.Retained(table, owned);
    }

    method AckedOffsets() returns (sent: map<TopicPartition, int>)
      requires Valid()
      ensures sent == S.AckedOffsets(table)
    {
      sent := map k | k in ackTracker && AckFrontier.CommitValue(ackTracker[k].Value()).Some? ::
                AckFrontier.CommitValue(ackTracker[k].Value()).value;
    }

    /** Note in the tracker of `k` that the offset `next` was committed. */
    method MarkOne(k: TopicPartition, next: int)
      requires Valid() && k in ackTracker
      modifies this`table, ackTracker[k]
      ensures Valid() && table == old(table)[k := AckFrontier.Committed(old(table)[k], next)]
    {
      hide AckFrontier.Committed;
      ackTracker[k].MarkCommitted(next);
      assert forall j | j in ackTracker && j != k :: ackTracker[j] != ackTracker[k];
      table := table[k := ackTracker[k].Value()];
    }

    method MarkCommitted(sent: map<TopicPartition, int>)
      requires Valid() && sent.Keys <= ackTracker.Keys
      modifies this`table, keyOf.Keys
      ensures Valid()
      ensures table == S.MarkedCommitted(old(table), sent)
    {
      hide S.MarkedCommitted, AckFrontier.Committed;
      ghost var before := table;
      var todo := sent.Keys;
      MarkNone(before, sent);
      while todo != {}
        invariant todo <= sent.Keys && Valid() && table == S.MarkedCommitted(before, sent - todo)
        decreases todo
      {
        var k :| k in todo;
        MarkOneMore(before, sent, todo, k);
        MarkOne(k, sent[k]);
        todo := todo - {k};
      }
      assert sent - {} == sent;
    }
  }

  /** The state `subscribe_inner` keeps across iterations, in explicit-acknowledgement mode. */
  class Subscription {
    const session: ConsumeSession
    var deliveredOffsets: S.Offsets
    var acknowledgedOffsets: map<TopicPartition, int>

    ghost predicate Valid()
      reads this, session, session.keyOf.Keys
    {
      session.Valid()
    }

    ghost function Value(): S.Stream
      requires Valid()
      reads this, session, session.keyOf.Keys
    {
      S.Stream(session.table, deliveredOffsets, acknowledgedOffsets)
    }

    constructor ()
      ensures Valid() && Value() == S.Start && fresh(session) && session.keyOf == map[]
    {
      session := new ConsumeSession();
      deliveredOffsets, acknowledgedOffsets := map[], map[];
    }

    method MarkAcknowledged(key: TopicPartition, frontier: int) returns (inspected: nat)
      modifies this
      ensures S.Marked(deliveredOffsets, acknowledgedOffsets, inspected)
              == S.MarkAcknowledged(old(deliveredOffsets), old(acknowledgedOffsets), key, frontier)
    {
      inspected := 0;
      if key in acknowledgedOffsets && frontier <= acknowledgedOffsets[key] {
        return;
      }
      acknowledgedOffsets := acknowledgedOffsets[key := frontier];
      if key in deliveredOffsets {
        var offsets := deliveredOffsets[key];
        ghost var before := offsets;
        while offsets != {}
          invariant offsets <= before && forall o | o in before && o > frontier :: o in offsets
          invariant inspected == |before - offsets|
          decreases offsets
        {
          inspected := inspected + 1;
          var first := First(offsets);
          if first > frontier {
            break;
          }
          assert before - (offsets - {first}) == (before - offsets) + {first};
          offsets := offsets - {first};
        }
        assert offsets == S.Above(before, frontier);
        deliveredOffsets := if offsets == {} then deliveredOffsets - {key} else deliveredOffsets[key := offsets];
      }
    }

    /** Record one acknowledgement and prune what the frontier passed. */
    method Acknowledge(p: S.Point) returns (ok: bool)
      requires Valid() && Int64(p.1)
      modifies this, session, session.keyOf.Keys
      ensures Valid() && fresh(session.keyOf.Keys - old(session.keyOf.Keys))
      ensures S.Acknowledged(ok, Value()) == S.AckOne(old(Value()), p)
    {
      ok := session.RecordAck(p.0, p.1);
      if ok {
        var frontier := session.AckedFrontier(p.0);
        if frontier.Some? {
          var _ := MarkAcknowledged(p.0, frontier.value);
        }
      }
    }

    method AcknowledgeAll(acks: seq<S.Point>) returns (ok: bool)
      requires Valid() && forall i | 0 <= i < |acks| :: Int64(acks[i].1)
      modifies this, session, session.keyOf.Keys
      ensures Valid() && fresh(session.keyOf.Keys - old(session.keyOf.Keys))
      ensures ok == S.AckAll(old(Value()), acks).ok
      ensures ok ==> Value() == S.AckAll(old(Value()), acks).stream
    {
      hide S.AckAll, S.AckOne;
      ghost var before := Value();
      AckNone(before);
      ok := true;
      for i := 0 to |acks|
        invariant Valid() && fresh(session.keyOf.Keys - old(session.keyOf.Keys))
        invariant S.Acknowledged(ok, Value()) == S.AckAll(before, acks[..i]) && ok
      {
        AckAllNext(before, acks, i);
        ok := Acknowledge(acks[i]);
        if !ok {
          FailureStays(before, acks, i + 1);
          return;
        }
      }
      assert acks[..|acks|] == acks;
    }

    /** Register the whole visible batch with the session. */
    method RegisterAll(decisions: seq<Decision>) returns (ok: bool)
      requires Valid()
      modifies session, session.keyOf.Keys
      ensures Valid() && fresh(session.keyOf.Keys - old(session.keyOf.Keys))
      ensures ok == S.RegisterAll(old(session.table), decisions).ok
      ensures ok ==> session.table == S.RegisterAll(old(session.table), decisions).table
    {
      hide S.RegisterAll, S.SessionDeliver;
      ghost var before := session.table;
      RegisterNone(before);
      ok := true;
      for i := 0 to |decisions|
        invariant Valid() && fresh(session.keyOf.Keys - old(session.keyOf.Keys))
        invariant S.TableOutcome(ok, session.table) == S.RegisterAll(before, decisions[..i]) && ok
      {
        var r := decisions[i].record;
        RegisterNext(before, decisions, i);
        ok := session.RecordDelivery(r.Key(), r.offset);
        if !ok {
          RegistrationFailureStays(before, decisions, i + 1);
          return;
        }
      }
      assert decisions[..|decisions|] == decisions;
    }

    /** Sort the decisions of one poll: note what is delivered, collect what is filtered out. */
    method TakeDecisions(decisions: seq<Decision>) returns (filteredAcks: seq<S.Point>)
      modifies this`deliveredOffsets
      ensures deliveredOffsets == S.Note(old(deliveredOffsets), decisions)
      ensures filteredAcks == S.Filtered(decisions)
    {
      filteredAcks := [];
      for i := 0 to |decisions|
        invariant deliveredOffsets == S.Note(old(deliveredOffsets), decisions[..i])
        invariant filteredAcks == S.Filtered(decisions[..i])
      {
        assert decisions[..i + 1][..i] == decisions[..i];
        var d := decisions[i];
        if d.Filter? {
          filteredAcks := filteredAcks + [S.PointOf(d)];
        } else {
          deliveredOffsets :=
            deliveredOffsets[d.record.Key() := S.DeliveredOf(deliveredOffsets, d.record.Key()) + {d.record.offset}];
        }
      }
      assert decisions[..|decisions|] == decisions;
    }

    /** The second half of an iteration: record the acknowledgements, then commit if there were any. */
    method AckAndCommit(acks: seq<S.Point>, ghost e: S.Event, owned: set<TopicPartition>, accepted: bool)
      returns (stop: Option<S.StopReason>, sent: map<TopicPartition, int>)
      requires Valid() && e.owned == owned && e.accepted == accepted
      requires forall i | 0 <= i < |acks| :: Int64(acks[i].1)
      modifies this, session, session.keyOf.Keys
      ensures Valid() && fresh(session.keyOf.Keys - old(session.keyOf.Keys))
      ensures S.AckAndCommit(old(Value()), acks, e) == S.StepResult(Outcome(stop, Value()), sent)
    {
      hide S.AckAll, S.Commit;
      var ok := AcknowledgeAll(acks);
      if !ok {
        return Some(S.AckUntracked), map[];
      }
      if acks == [] {
        return None, map[];
      }
      ok, sent := session.CommitAcked(owned, accepted);
      stop := if ok then None else Some(S.CommitFailed);
    }

    /** One iteration of the loop whose `select!` took the poll. */
    method OnPoll(decisions: seq<Decision>, owned: set<TopicPartition>, accepted: bool)
      returns (stop: Option<S.StopReason>, sent: map<TopicPartition, int>)
      requires Valid()
      modifies this, session, session.keyOf.Keys
      ensures Valid() && fresh(session.keyOf.Keys - old(session.keyOf.Keys))
      ensures S.Step(old(Value()), S.Poll(decisions, owned, accepted)) == S.StepResult(Outcome(stop, Value()), sent)
    {
      var filteredAcks := TakeDecisions(decisions);
      var ok := RegisterAll(decisions);
      if !ok {
        return Some(S.TooManyUnacked), map[];
      }
      forall i | 0 <= i < |filteredAcks| ensures Int64(filteredAcks[i].1) {
        FilteredInRange(decisions, i);
      }
      stop, sent := AckAndCommit(filteredAcks, S.Poll(decisions, owned, accepted), owned, accepted);
    }

    /** One iteration of the loop whose `select!` took a client acknowledgement. */
    method OnAck(key: TopicPartition, offset: I64, owned: set<TopicPartition>, accepted: bool)
      returns (stop: Option<S.StopReason>, sent: map<TopicPartition, int>)
      requires Valid()
      modifies this, session, session.keyOf.Keys
      ensures Valid() && fresh(session.keyOf.Keys - old(session.keyOf.Keys))
      ensures S.Step(old(Value()), S.ClientAck(key, offset, owned, accepted))
              == S.StepResult(Outcome(stop, Value()), sent)
    {
      if key in acknowledgedOffsets && offset <= acknowledgedOffsets[key] {
        return None, map[];
      }
      if offset < 0 || key !in deliveredOffsets || offset !in deliveredOffsets[key] {
        return Some(S.AckRejected), map[];
      }
      stop, sent := AckAndCommit([(key, offset)], S.ClientAck(key, offset, owned, accepted), owned, accepted);
    }
  }

  lemma Overwritten<K, V>(m: map<K, V>, k: K, v: V, w: V)
    ensures m[k := v][k := w] == m[k := w]
  {
  }

  predicate Int64(offset: int) {
    AckFrontier.I64_MIN <= offset <= AckFrontier.I64_MAX
  }

  ghost function Outcome(stop: Option<S.StopReason>, stream: S.Stream): S.State {
    if stop.None? then S.Running(stream) else S.Stopped(stop.value)
  }

  lemma MarkNone(table: S.Table, sent: map<TopicPartition, int>)
    ensures S.MarkedCommitted(table, sent - sent.Keys) == table
  {
  }

  lemma MarkOneMore(table: S.Table, sent: map<TopicPartition, int>, todo: set<TopicPartition>, k: TopicPartition)
    requires k in table && k in sent && k in todo
    ensures var marked := S.MarkedCommitted(table, sent - todo);
      k in marked && S.MarkedCommitted(table, sent - (todo - {k}))
                     == marked[k := AckFrontier.Committed(marked[k], sent[k])]
  {
    hide AckFrontier.Committed;
  }

  lemma AckNone(s: S.Stream)
    ensures S.AckAll(s, []) == S.Acknowledged(true, s)
  {
  }

  lemma RegisterNone(table: S.Table)
    ensures S.RegisterAll(table, []) == S.TableOutcome(true, table)
  {
  }

  lemma AckAllNext(s: S.Stream, acks: seq<S.Point>, i: nat)
    requires i < |acks| && S.AckAll(s, acks[..i]).ok
    ensures S.AckAll(s, acks[..i + 1]) == S.AckOne(S.AckAll(s, acks[..i]).stream, acks[i])
  {
    assert acks[..i + 1][..i] == acks[..i];
  }

  lemma RegisterNext(table: S.Table, decisions: seq<Decision>, i: nat)
    requires i < |decisions| && S.RegisterAll(table, decisions[..i]).ok
    ensures var r := decisions[i].record;
      S.RegisterAll(table, decisions[..i + 1])
      == S.SessionDeliver(S.RegisterAll(table, decisions[..i]).table, r.Key(), r.offset)
  {
    assert decisions[..i + 1][..i] == decisions[..i];
  }

  lemma {:induction false} FailureStays(s: S.Stream, acks: seq<S.Point>, i: nat)
    requires i <= |acks| && !S.AckAll(s, acks[..i]).ok
    ensures !S.AckAll(s, acks).ok
    decreases |acks|
  {
    if i == |acks| {
      assert acks[..i] == acks;
    } else {
      assert acks[..|acks| - 1][..i] == acks[..i];
      FailureStays(s, acks[..|acks| - 1], i);
    }
  }

  lemma {:induction false} RegistrationFailureStays(table: S.Table, decisions: seq<Decision>, i: nat)
    requires i <= |decisions| && !S.RegisterAll(table, decisions[..i]).ok
    ensures !S.RegisterAll(table, decisions).ok
    decreases |decisions|
  {
    if i == |decisions| {
      assert decisions[..i] == decisions;
    } else {
      assert decisions[..|decisions| - 1][..i] == decisions[..i];
      RegistrationFailureStays(table, decisions[..|decisions| - 1], i);
    }
  }

  lemma {:induction false} FilteredInRange(decisions: seq<Decision>, i: nat)
    requires i < |S.Filtered(decisions)|
    ensures Int64(S.Filtered(decisions)[i].1)
  {
    var init := decisions[..|decisions| - 1];
    if i < |S.Filtered(init)| {
      FilteredInRange(init, i);
    }
  }
}
