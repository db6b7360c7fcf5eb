/**
 The SDK's in-memory queue backend (stubs.rs, messaging.rs): a list of per-group states whose
 entries are made when a message is first taken, and a list of sessions.
 */
module StubQueues {
  import opened Wrappers
  import opened Records
  import opened ShareGroup

  const CONFIG := Config("mock-queue-session-", 0x7FFF_FFFF, None)

  datatype MockSession = MockSession(id: string, topic: string, group: string, maxMessages: nat)

  datatype MessageState = MessageState(group: string, delivery: Coordinate, disposition: Disposition, count: nat)
  {
    predicate Is(g: string, c: Coordinate) { group == g && delivery == c }
  }

  // ---------- what the lists mean ----------

  /** The first entry for a group and a coordinate. */
  function Position(states: seq<MessageState>, g: string, c: Coordinate): (r: Option<nat>)
    ensures r.Some? ==> r.value < |states| && states[r.value].Is(g, c) && forall k | 0 <= k < r.value :: !states[k].Is(g, c)
    ensures r.None? ==> forall k | 0 <= k < |states| :: !states[k].Is(g, c)
  {
    if states == [] then None
    else
      var n := |states| - 1;
      var before := Position(states[..n], g, c);
      if before.Some? then
        assert forall k | 0 <= k < n :: states[..n][k] == states[k];
        before
      else if states[n].Is(g, c) then Some(n)
      else
        assert forall k | 0 <= k < n :: states[..n][k] == states[k];
        None
  }

  function StateAt(states: seq<MessageState>, g: string, c: Coordinate): Delivery {
    var p := Position(states, g, c);
    if p.Some? then Delivery(states[p.value].disposition, states[p.value].count) else Delivery(Available, 0)
  }

  /** No group has two entries for one coordinate. */
  ghost predicate Unique(states: seq<MessageState>) {
    forall i, j | 0 <= i < j < |states| :: !(states[i].group == states[j].group && states[i].delivery == states[j].delivery)
  }

  ghost predicate StatesMatch(states: seq<MessageState>, ds: Deliveries) {
    Unique(states) && forall g: string, c: Coordinate :: StateAt(states, g, c) == DeliveryAt(ds, g, c)
  }

  lemma TheEntry(states: seq<MessageState>, i: nat, g: string, c: Coordinate)
    requires Unique(states) && i < |states| && states[i].Is(g, c)
    ensures Position(states, g, c) == Some(i)
  {
  }

  /** An entry made for a coordinate that has none says what its absence said. */
  lemma EntryMade(states: seq<MessageState>, g: string, c: Coordinate, ds: Deliveries)
    requires StatesMatch(states, ds) && Position(states, g, c).None?
    ensures StatesMatch(states + [MessageState(g, c, Available, 0)], ds)
  {
    var all := states + [MessageState(g, c, Available, 0)];
    forall h: string, d: Coordinate ensures StateAt(all, h, d) == DeliveryAt(ds, h, d) {
      assert all[..|states|] == states;
      assert StateAt(states, h, d) == DeliveryAt(ds, h, d);
    }
  }

  /** Overwriting an entry changes that delivery and no other. */
  lemma EntryWritten(states: seq<MessageState>, i: nat, d: Delivery, ds: Deliveries)
    requires StatesMatch(states, ds) && i < |states|
    ensures StatesMatch(
      states[i := states[i].(disposition := d.disposition, count := d.count)],
      ds[(states[i].group, states[i].delivery) := d])
  {
    var g, c := states[i].group, states[i].delivery;
    var written := states[i := states[i].(disposition := d.disposition, count := d.count)];
    forall h: string, e: Coordinate ensures StateAt(written, h, e) == DeliveryAt(ds[(g, c) := d], h, e) {
      assert StateAt(states, h, e) == DeliveryAt(ds, h, e);
      if h == g && e == c {
        TheEntry(written, i, g, c);
      } else {
        SamePosition(states, written, i, h, e);
      }
    }
  }

  lemma SamePosition(states: seq<MessageState>, written: seq<MessageState>, i: nat, h: string, e: Coordinate)
    requires i < |states| == |written| && !states[i].Is(h, e) && !written[i].Is(h, e)
    requires forall k | 0 <= k < |states| && k != i :: written[k] == states[k]
    ensures StateAt(written, h, e) == StateAt(states, h, e)
  {
    var p, q := Position(states, h, e), Position(written, h, e);
    if p.Some? { assert written[p.value].Is(h, e); }
    if q.Some? { assert states[q.value].Is(h, e); }
  }

  function SessionAt(sessions: seq<MockSession>, id: string): Option<SessionInfo> {
    if sessions == [] then None
    else if sessions[0].id == id then Some(SessionInfo(sessions[0].topic, sessions[0].group, sessions[0].maxMessages))
    else SessionAt(sessions[1..], id)
  }

  ghost predicate SessionsMatch(sessions: seq<MockSession>, m: Model) {
    && |sessions| == m.started
    && forall id: string :: SessionAt(sessions, id) == if id in m.sessions then Some(m.sessions[id]) else None
  }

  lemma {:induction false} SessionPushed(sessions: seq<MockSession>, s: MockSession, id: string)
    requires SessionAt(sessions, s.id).None?
    ensures SessionAt(sessions + [s], id) ==
      if id == s.id then Some(SessionInfo(s.topic, s.group, s.maxMessages)) else SessionAt(sessions, id)
    decreases |sessions|
  {
    if sessions != [] {
      assert (sessions + [s])[1..] == sessions[1..] + [s];
      SessionPushed(sessions[1..], s, id);
    }
  }

  // ---------- the backend ----------

  class MockState {
    var messages: seq<Message>
    var queueSessions: seq<MockSession>
    var queueStates: seq<MessageState>
    ghost var model: Model

    constructor ()
      ensures Valid() && model == Empty(CONFIG)
    {
      messages, queueSessions, queueStates := [], [], [];
      model := Empty(CONFIG);
    }

    ghost predicate Valid()
      reads this
    {
      && Inv(model) && model.config == CONFIG
      && messages == model.messages
      && SessionsMatch(queueSessions, model)
      && StatesMatch(queueStates, model.deliveries)
    }

    method PublishMock(topic: string, value: seq<Byte>) returns (r: Result<int, ErrorKind>)
      requires Valid()
      modifies this
      ensures Valid() && (model, r) == Publish(old(model), topic, value)
    {
      if topic == "" {
        return Err(InvalidArgument);
      }
      if topic == "__missing_topic" {
        return Err(NotFound);
      }
      var offset := 0;
      for i := 0 to |messages|
        invariant offset == CountTopic(messages[..i], topic)
      {
        assert messages[..i + 1][..i] == messages[..i];
        if messages[i].topic == topic { offset := offset + 1; }
      }
      assert messages[..|messages|] == messages;
      StepKeeps(model, Publishes(topic, value));
      messages := messages + [Message(topic, 0, offset, value)];
      model := Publish(model, topic, value).0;
      r := Ok(offset);
    }

    /** `find` over the sessions. */
    method FindSession(id: string) returns (r: Option<SessionInfo>)
      ensures r == SessionAt(queueSessions, id)
    {
      assert queueSessions[0..] == queueSessions;
      for i := 0 to |queueSessions|
        invariant SessionAt(queueSessions, id) == SessionAt(queueSessions[i..], id)
      {
        TailOfTail(queueSessions, i, 1);
        var s := queueSessions[i];
        if s.id == id {
          return Some(SessionInfo(s.topic, s.group, s.maxMessages));
        }
      }
      r := None;
    }

    /** `mock_session_id`. */
    method SessionId(requested: string, topic: string, group: string, max: nat, effectiveMax: nat) returns (r: Result<string, ErrorKind>)
      requires Valid() && effectiveMax == Clamp(max)
      modifies this
      ensures Valid() && (model, r) == Session(old(model), topic, group, max, requested)
      ensures messages == old(messages) && queueStates == old(queueStates)
    {
      if requested != "" {
        var session := FindSession(requested);
        if session.None? {
          return Err(InvalidArgument);
        }
        if session.value.topic != topic || session.value.group != group {
          return Err(InvalidArgument);
        }
        if max != 0 && effectiveMax != session.value.maxMessages {
          return Err(InvalidArgument);
        }
        return Ok(requested);
      }
      var id := Name(CONFIG, |queueSessions| + 1);
      var session := MockSession(id, topic, group, effectiveMax);
      ghost var next := Session(model, topic, group, max, requested).0;
      SessionKeeps(model, topic, group, max, requested);
      forall other: string
        ensures SessionAt(queueSessions + [session], other) == if other in next.sessions then Some(next.sessions[other]) else None
      {
        assert SessionAt(queueSessions, id).None?;
        SessionPushed(queueSessions, session, other);
      }
      queueSessions := queueSessions + [session];
      model := next;
      r := Ok(id);
    }

    /** `mock_queue_state_mut`. */
    method StateMut(group: string, delivery: Coordinate, ghost ds: Deliveries) returns (index: nat)
      requires StatesMatch(queueStates, ds)
      modifies this`queueStates
      ensures StatesMatch(queueStates, ds)
      ensures index < |queueStates| && queueStates[index].Is(group, delivery)
    {
      var p := Position(queueStates, group, delivery);
      if p.Some? {
        return p.value;
      }
      EntryMade(queueStates, group, delivery, ds);
      queueStates := queueStates + [MessageState(group, delivery, Available, 0)];
      index := |queueStates| - 1;
    }

    /** The messages `acquire_mock` will hand out. */
    method Deliverable(topic: string, group: string, max: nat) returns (delivered: seq<Message>)
      requires Valid()
      ensures delivered == Chosen(model.deliveries, messages, topic, group, max)
    {
      delivered := [];
      for i := 0 to |messages|
        invariant delivered == Chosen(model.deliveries, messages[..i], topic, group, max)
      {
        assert messages[..i + 1][..i] == messages[..i];
        var message := messages[i];
        var p := Position(queueStates, group, message.At());
        assert StateAt(queueStates, group, message.At()) == DeliveryAt(model.deliveries, group, message.At());
        if |delivered| < max && message.topic == topic && (p.None? || queueStates[p.value].disposition == Available) {
          delivered := delivered + [message];
        }
      }
      assert messages[..|messages|] == messages;
    }

    /** Take one message for a session. */
    method TakeMessage(message: Message, group: string, session: string, ghost ds: Deliveries) returns (count: nat)
      requires StatesMatch(queueStates, ds)
      modifies this`queueStates
      ensures StatesMatch(queueStates, Take(CONFIG, ds, group, session, message))
      ensures count == Bump(CONFIG.countLimit, DeliveryAt(ds, group, message.At()).count)
    {
      var index := StateMut(group, message.At(), ds);
      TheEntry(queueStates, index, group, message.At());
      assert StateAt(queueStates, group, message.At()) == DeliveryAt(ds, group, message.At());
      count := Bump(CONFIG.countLimit, queueStates[index].count);
      EntryWritten(queueStates, index, Delivery(Acquired(session), count), ds);
      queueStates := queueStates[index := queueStates[index].(disposition := Acquired(session), count := count)];
    }

    /** Take every message and say how often each has been delivered. */
    method TakeMessages(delivered: seq<Message>, group: string, session: string, ghost ds: Deliveries) returns (handed: seq<(Message, nat)>)
      requires StatesMatch(queueStates, ds) && Distinct(delivered)
      modifies this`queueStates
      ensures StatesMatch(queueStates, TakeAll(CONFIG, ds, group, session, delivered))
      ensures handed == Handed(TakeAll(CONFIG, ds, group, session, delivered), group, delivered)
    {
      handed := [];
      for k := 0 to |delivered|
        invariant StatesMatch(queueStates, TakeAll(CONFIG, ds, group, session, delivered[..k]))
        invariant |handed| == k
        invariant forall j | 0 <= j < k ::
          handed[j] == (delivered[j], Bump(CONFIG.countLimit, DeliveryAt(ds, group, delivered[j].At()).count))
      {
        assert delivered[..k + 1][..k] == delivered[..k];
        NotYetTaken(CONFIG, ds, group, session, delivered, k);
        var count := TakeMessage(delivered[k], group, session, TakeAll(CONFIG, ds, group, session, delivered[..k]));
        handed := handed + [(delivered[k], count)];
      }
      assert delivered[..|delivered|] == delivered;
      HandedCounts(CONFIG, ds, group, session, delivered, handed);
    }

    method AcquireMock(topic: string, group: string, max: nat, lockMs: nat, requested: string) returns (r: Result<Handout, ErrorKind>)
      requires Valid()
      modifies this
      ensures Valid() && (model, r) == Acquire(old(model), topic, group, max, lockMs, requested)
    {
      if group == "" || topic == "" || lockMs != SUPPORTED_QUEUE_LOCK_DURATION_MS {
        return Err(InvalidArgument);
      }
      StepKeeps(model, Acquires(topic, group, max, lockMs, requested));
      var session := SessionId(requested, topic, group, max, Clamp(max));
      if session.Err? {
        return Err(session.error);
      }
      var delivered := Deliverable(topic, group, Clamp(max));
      ChosenAreAllDistinct(model.deliveries, messages, topic, group, Clamp(max));
      var handed := TakeMessages(delivered, group, session.value, model.deliveries);
      model := model.(deliveries := TakeAll(CONFIG, model.deliveries, group, session.value, delivered));
      r := Ok((session.value, handed));
    }

    /** `find` for an entry the session holds. */
    method FindHeld(group: string, session: string, c: Coordinate, ghost ds: Deliveries) returns (p: Option<nat>)
      requires StatesMatch(queueStates, ds)
      ensures p.Some? <==> Held(ds, group, session, Some(c))
      ensures p.Some? ==> p.value < |queueStates| && queueStates[p.value].Is(group, c)
    {
      assert StateAt(queueStates, group, c) == DeliveryAt(ds, group, c);
      for i := 0 to |queueStates|
        invariant forall k | 0 <= k < i :: !(queueStates[k].Is(group, c) && queueStates[k].disposition == Acquired(session))
      {
        if queueStates[i].Is(group, c) && queueStates[i].disposition == Acquired(session) {
          TheEntry(queueStates, i, group, c);
          return Some(i);
        }
      }
      p := None;
    }

    /** Settle one entry if the session holds it. */
    method SettleEntry(group: string, session: string, c: Coordinate, ack: AckType, ghost ds: Deliveries) returns (held: bool)
      requires StatesMatch(queueStates, ds)
      modifies this`queueStates
      ensures StatesMatch(queueStates, Settle(ds, group, session, Some(c), ack))
      ensures held == Held(ds, group, session, Some(c))
    {
      var p := FindHeld(group, session, c, ds);
      if p.None? {
        return false;
      }
      var i := p.value;
      TheEntry(queueStates, i, group, c);
      assert StateAt(queueStates, group, c) == DeliveryAt(ds, group, c);
      EntryWritten(queueStates, i, Delivery(Settled(ack), queueStates[i].count), ds);
      queueStates := queueStates[i := queueStates[i].(disposition := Settled(ack))];
      held := true;
    }

    method SettleEntries(group: string, session: string, entries: seq<(Coordinate, AckType)>, ghost ds: Deliveries) returns (results: seq<bool>)
      requires StatesMatch(queueStates, ds)
      modifies this`queueStates
      ensures StatesMatch(queueStates, SettleAll(ds, group, session, Named(entries)))
      ensures results == Answers(ds, group, session, Named(entries))
    {
      ghost var named := Named(entries);
      results := [];
      for k := 0 to |entries|
        invariant StatesMatch(queueStates, SettleAll(ds, group, session, named[..k]))
        invariant results == Answers(ds, group, session, named[..k])
      {
        assert named[..k + 1][..k] == named[..k];
        var held := SettleEntry(group, session, entries[k].0, entries[k].1, SettleAll(ds, group, session, named[..k]));
        results := results + [held];
      }
      assert named[..|entries|] == named;
    }

    method AcknowledgeMock(session: string, entries: seq<(Coordinate, AckType)>) returns (r: Result<seq<bool>, ErrorKind>)
      requires Valid()
      modifies this
      ensures Valid() && (model, r) == Acknowledge(old(model), session, Named(entries))
    {
      var found := FindSession(session);
      if found.None? {
        return Err(InvalidArgument);
      }
      StepKeeps(model, Acknowledges(session, Named(entries)));
      var results := SettleEntries(found.value.group, session, entries, model.deliveries);
      model := Acknowledge(model, session, Named(entries)).0;
      r := Ok(results);
    }

    method RenewMock(session: string, targets: seq<Coordinate>) returns (r: Result<seq<bool>, ErrorKind>)
      requires Valid()
      ensures r == Renew(model, session, Present(targets))
    {
      var found := FindSession(session);
      if found.None? {
        return Err(InvalidArgument);
      }
      var group := found.value.group;
      var results: seq<bool> := [];
      ghost var present := Present(targets);
      for k := 0 to |targets|
        invariant results == Renewals(model.deliveries, group, session, present[..k])
      {
        assert present[..k + 1][..k] == present[..k];
        var p := FindHeld(group, session, targets[k], model.deliveries);
        results := results + [p.Some?];
      }
      assert present[..|targets|] == present;
      r := Ok(results);
    }
  }

  ghost function Named(entries: seq<(Coordinate, AckType)>): seq<AckEntry> {
    seq(|entries|, k requires 0 <= k < |entries| => (Some(entries[k].0), entries[k].1))
  }

  ghost function Present(targets: seq<Coordinate>): seq<Option<Coordinate>> {
    seq(|targets|, k requires 0 <= k < |targets| => Some(targets[k]))
  }
}
