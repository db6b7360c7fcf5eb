/**
 The conformance adapter's queue backend (mock_adapter.rs): each stored message carries its own
 map from group to delivery state, and entries name messages by a text id.
 */
module AdapterQueues {
  import opened Wrappers
  import opened Records
  import opened Text
  import opened ShareGroup

  const U64_MAX: nat := 0xFFFF_FFFF_FFFF_FFFF
  const CONFIG := Config("queue-session-", 0xFFFF_FFFF, Some(U64_MAX))

  datatype QueueMessageState = IsAvailable | IsAcquired | IsAccepted | IsRejected

  datatype DeliveryState = DeliveryState(state: QueueMessageState, sessionId: Option<string>, count: nat)

  datatype StoredMessage = StoredMessage(message: Message, queueStates: map<string, DeliveryState>)
  {
    function StateOf(group: string): DeliveryState {
      if group in queueStates then queueStates[group] else DeliveryState(IsAvailable, None, 0)
    }
  }

  // ---------- message ids ----------

  /** `queue_message_id`. */
  function MessageId(m: Message): string {
    m.topic + ":" + FormatInt(m.partition) + ":" + FormatInt(m.offset)
  }

  lemma OffsetIsLast(topic: string, offset: nat, id: string)
    requires id == topic + ":0:" + Decimal(offset)
    ensures var n := |Decimal(offset)|;
      && id[|id| - n..] == Decimal(offset) && id[|id| - n - 1] == ':' && id[..|id| - n - 3] == topic
      && forall k | |id| - n <= k < |id| :: id[k] != ':'
  {
    var n := |Decimal(offset)|;
    forall k | |id| - n <= k < |id| ensures id[k] != ':' {
      assert id[k] == Decimal(offset)[k - (|id| - n)];
      assert IsDigit(Decimal(offset)[k - (|id| - n)]);
    }
  }

  /** Ids tell messages of partition zero apart, whatever colons their topics hold. */
  lemma IdsAreUnique(a: Message, b: Message)
    requires a.partition == b.partition == 0 && a.offset >= 0 && b.offset >= 0
    requires MessageId(a) == MessageId(b)
    ensures a.At() == b.At()
  {
    var id := MessageId(a);
    assert Decimal(0) == "0";
    assert id == a.topic + ":0:" + Decimal(a.offset);
    assert id == b.topic + ":0:" + Decimal(b.offset);
    OffsetIsLast(a.topic, a.offset, id);
    OffsetIsLast(b.topic, b.offset, id);
    assert |Decimal(a.offset)| == |Decimal(b.offset)|;
    DecimalInjective(a.offset, b.offset);
  }

  /** The first message with an id. */
  function Find(messages: seq<Message>, id: string): (r: Option<nat>)
    ensures r.Some? ==> r.value < |messages| && MessageId(messages[r.value]) == id
    ensures r.None? ==> forall k | 0 <= k < |messages| :: MessageId(messages[k]) != id
  {
    if messages == [] then None
    else if MessageId(messages[0]) == id then Some(0)
    else
      var rest := Find(messages[1..], id);
      assert messages == [messages[0]] + messages[1..];
      if rest.Some? then Some(rest.value + 1) else None
  }

  function Target(messages: seq<Message>, id: string): Option<Coordinate> {
    var p := Find(messages, id);
    if p.Some? then Some(messages[p.value].At()) else None
  }

  /** An entry that names a message by its id reaches that message. */
  lemma IdReachesMessage(messages: seq<Message>, k: nat)
    requires Numbered(messages) && k < |messages|
    ensures Find(messages, MessageId(messages[k])) == Some(k)
  {
    var id := MessageId(messages[k]);
    var p := Find(messages, id);
    assert p.Some?;
    IdsAreUnique(messages[p.value], messages[k]);
    if p.value < k { CoordinatesAreUnique(messages, p.value, k); }
    if k < p.value { CoordinatesAreUnique(messages, k, p.value); }
  }

  // ---------- what the stored messages mean ----------

  function DispositionOf(d: DeliveryState): Disposition {
    match d.state
    case IsAvailable => Available
    case IsAcquired => Acquired(if d.sessionId.Some? then d.sessionId.value else "")
    case IsAccepted => Accepted
    case IsRejected => Rejected
  }

  function Meaning(d: DeliveryState): Delivery { Delivery(DispositionOf(d), d.count) }

  predicate Sound(d: DeliveryState) { d.state.IsAcquired? <==> d.sessionId.Some? }

  function Plain(stored: seq<StoredMessage>): seq<Message> {
    seq(|stored|, k requires 0 <= k < |stored| => stored[k].message)
  }

  ghost predicate Says(s: StoredMessage, ds: Deliveries, g: string) {
    Sound(s.StateOf(g)) && Meaning(s.StateOf(g)) == DeliveryAt(ds, g, s.message.At())
  }

  ghost predicate StatesMatch(stored: seq<StoredMessage>, ds: Deliveries) {
    forall k: nat, g: string | k < |stored| :: Says(stored[k], ds, g)
  }

  function Written(s: StoredMessage, g: string, d: DeliveryState): StoredMessage {
    s.(queueStates := s.queueStates[g := d])
  }

  /** Writing one group's state of one message changes that delivery and no other. */
  lemma StateWritten(stored: seq<StoredMessage>, i: nat, g: string, d: DeliveryState, ds: Deliveries)
    requires StatesMatch(stored, ds) && Numbered(Plain(stored)) && i < |stored| && Sound(d)
    ensures var after := stored[i := Written(stored[i], g, d)];
      StatesMatch(after, ds[(g, stored[i].message.At()) := Meaning(d)]) && Plain(after) == Plain(stored)
  {
    var after := stored[i := Written(stored[i], g, d)];
    var ds' := ds[(g, stored[i].message.At()) := Meaning(d)];
    forall k: nat, h: string | k < |after| ensures Says(after[k], ds', h) {
      assert Says(stored[k], ds, h);
      if k != i {
        assert Plain(stored)[k] == stored[k].message && Plain(stored)[i] == stored[i].message;
        if k < i { CoordinatesAreUnique(Plain(stored), k, i); } else { CoordinatesAreUnique(Plain(stored), i, k); }
      }
    }
  }

  /** A message that has just been published is available to every group. */
  lemma NewMessageMatches(stored: seq<StoredMessage>, message: Message, m: Model)
    requires StatesMatch(stored, m.deliveries) && OnlyPublished(m) && Plain(stored) == m.messages
    requires message.offset == CountTopic(m.messages, message.topic)
    ensures var after := stored + [StoredMessage(message, map[])];
      StatesMatch(after, m.deliveries) && Plain(after) == m.messages + [message]
  {
    var after := stored + [StoredMessage(message, map[])];
    assert forall g: string :: DeliveryAt(m.deliveries, g, message.At()) == Delivery(Available, 0);
    forall k: nat, g: string | k < |after| ensures Says(after[k], m.deliveries, g) {
      if k < |stored| { assert Says(stored[k], m.deliveries, g); }
    }
    assert Plain(after) == Plain(stored) + [message];
  }

  /** The saturating counter after `started` sessions. */
  function NextId(started: nat): nat { if started < U64_MAX then started + 1 else U64_MAX }

  lemma NextName(started: nat)
    ensures CONFIG.prefix + Decimal(NextId(started)) == Name(CONFIG, started + 1)
    ensures Bump(U64_MAX, NextId(started)) == NextId(started + 1)
  {
    hide Decimal;
  }

  // ---------- the adapter ----------

  class MockAdapter {
    var messages: seq<StoredMessage>
    var nextSessionId: nat
    var queueSessions: map<string, SessionInfo>
    ghost var model: Model

    constructor ()
      ensures Valid() && model == Empty(CONFIG)
    {
      messages, nextSessionId, queueSessions := [], 1, map[];
      model := Empty(CONFIG);
    }

    ghost predicate Valid()
      reads this
    {
      && Inv(model) && model.config == CONFIG
      && Plain(messages) == model.messages
      && queueSessions == model.sessions && nextSessionId == NextId(model.started)
      && StatesMatch(messages, model.deliveries)
    }

    /** How many messages of the topic there are. */
    method MessagesOf(topic: string) returns (count: nat)
      ensures count == CountTopic(Plain(messages), topic)
    {
      count := 0;
      for i := 0 to |messages|
        invariant count == CountTopic(Plain(messages)[..i], topic)
      {
        assert Plain(messages)[..i + 1][..i] == Plain(messages)[..i];
        if messages[i].message.topic == topic { count := count + 1; }
      }
      assert Plain(messages)[..|messages|] == Plain(messages);
    }

    method PublishMessage(topic: string, value: seq<Byte>) returns (r: Result<int, ErrorKind>)
      requires Valid()
      modifies this
      ensures Valid() && (model, r) == Publish(old(model), topic, value)
    {
      hide Says, OnlyPublished, HeldBySessions, NamesAreFree, Numbered, Plain;
      if topic == "" {
        return Err(InvalidArgument);
      }
      if topic == "__missing_topic" {
        return Err(NotFound);
      }
      var offset := MessagesOf(topic);
      StepKeeps(model, Publishes(topic, value));
      NewMessageMatches(messages, Message(topic, 0, offset, value), model);
      messages := messages + [StoredMessage(Message(topic, 0, offset, value), map[])];
      model := Publish(model, topic, value).0;
      r := Ok(offset);
    }

    /** `next_queue_session_id` and the session lookup of `queue_acquire`. */
    method SessionId(requested: string, topic: string, group: string, max: nat) returns (r: Result<string, ErrorKind>)
      requires Valid()
      modifies this
      ensures Valid() && (model, r) == Session(old(model), topic, group, max, requested)
      ensures messages == old(messages)
    {
      hide Decimal, Inv, Says, Plain, Name, NextId, Bump;
      SessionKeeps(model, topic, group, max, requested);
      NextName(model.started);
      if requested == "" {
        var id := CONFIG.prefix + Decimal(nextSessionId);
        nextSessionId := Bump(U64_MAX, nextSessionId);
        queueSessions := queueSessions[id := SessionInfo(topic, group, Clamp(max))];
        model := Session(model, topic, group, max, requested).0;
        return Ok(id);
      }
      if requested !in queueSessions {
        return Err(InvalidArgument);
      }
      var session := queueSessions[requested];
      if session.topic != topic || session.group != group {
        return Err(InvalidArgument);
      }
      if max != 0 && Clamp(max) != session.maxMessages {
        return Err(InvalidArgument);
      }
      r := Ok(requested);
    }

    /** Take the message at `i` for a session. */
    method TakeMessage(i: nat, group: string, session: string, ghost ds: Deliveries) returns (count: nat)
      requires i < |messages| && StatesMatch(messages, ds) && Numbered(Plain(messages))
      modifies this`messages
      ensures Plain(messages) == old(Plain(messages))
      ensures StatesMatch(messages, Take(CONFIG, ds, group, session, Plain(messages)[i]))
      ensures count == Bump(CONFIG.countLimit, DeliveryAt(ds, group, Plain(messages)[i].At()).count)
    {
      assert Says(messages[i], ds, group);
      var state := messages[i].StateOf(group);
      state := state.(state := IsAcquired, sessionId := Some(session), count := Bump(CONFIG.countLimit, state.count));
      StateWritten(messages, i, group, state, ds);
      messages := messages[i := Written(messages[i], group, state)];
      count := state.count;
    }

    /** The single pass of `queue_acquire` over the messages. */
    method TakeMessages(topic: string, group: string, session: string, max: nat, ghost ds: Deliveries) returns (handed: seq<(Message, nat)>)
      requires StatesMatch(messages, ds) && Numbered(Plain(messages))
      modifies this`messages
      ensures Plain(messages) == old(Plain(messages))
      ensures var chosen := Chosen(ds, Plain(messages), topic, group, max);
        && StatesMatch(messages, TakeAll(CONFIG, ds, group, session, chosen))
        && handed == Handed(TakeAll(CONFIG, ds, group, session, chosen), group, chosen)
    {
      hide Says, Bump, DeliveryAt, TakeAll, Take, Numbered;
      handed := [];
      TakeNone(ds, group, session);
      ghost var plain := Plain(messages);
      ghost var chosen: seq<Message> := [];
      for i := 0 to |messages|
        invariant Plain(messages) == plain
        invariant chosen == Chosen(ds, plain[..i], topic, group, max)
        invariant StatesMatch(messages, TakeAll(CONFIG, ds, group, session, chosen))
        invariant Counted(handed, chosen, ds, group)
      {
        assert plain[..i + 1][..i] == plain[..i];
        ghost var now := TakeAll(CONFIG, ds, group, session, chosen);
        NotChosenYet(ds, plain, i, topic, group, max, session);
        SeenAsOffered(messages[i], ds, now, topic, group);
        if messages[i].message.topic == topic && messages[i].StateOf(group).state == IsAvailable && |handed| < max {
          var message := messages[i].message;
          var count := TakeMessage(i, group, session, now);
          TakeOneMore(ds, group, session, chosen, message);
          handed := handed + [(message, count)];
          chosen := chosen + [message];
        }
      }
      assert plain[..|messages|] == plain;
      ChosenAreAllDistinct(ds, plain, topic, group, max);
      HandedCounts(CONFIG, ds, group, session, chosen, handed);
    }

    method QueueAcquire(topic: string, group: string, max: nat, lockMs: nat, requested: string) returns (r: Result<Handout, ErrorKind>)
      requires Valid()
      modifies this
      ensures Valid() && (model, r) == Acquire(old(model), topic, group, max, lockMs, requested)
    {
      if group == "" || topic == "" || lockMs != SUPPORTED_QUEUE_LOCK_DURATION_MS {
        return Err(InvalidArgument);
      }
      StepKeeps(model, Acquires(topic, group, max, lockMs, requested));
      var session := SessionId(requested, topic, group, max);
      if session.Err? {
        return Err(session.error);
      }
      var handed := TakeMessages(topic, group, session.value, Clamp(max), model.deliveries);
      ghost var chosen := Chosen(model.deliveries, model.messages, topic, group, Clamp(max));
      model := model.(deliveries := TakeAll(CONFIG, model.deliveries, group, session.value, chosen));
      r := Ok((session.value, handed));
    }

    /** `queue_state_mut`: the message an id names, if the session holds it. */
    method FindHeld(group: string, session: string, id: string, ghost ds: Deliveries) returns (p: Option<nat>)
      requires StatesMatch(messages, ds)
      ensures p.Some? <==> Held(ds, group, session, Target(Plain(messages), id))
      ensures p.Some? ==> p.value < |messages| && Target(Plain(messages), id) == Some(messages[p.value].message.At())
    {
      p := Find(Plain(messages), id);
      if p.Some? {
        assert Says(messages[p.value], ds, group);
        var state := messages[p.value].StateOf(group);
        if state.state != IsAcquired || state.sessionId != Some(session) {
          p := None;
        }
      }
    }

    /** `queue_ack_result`. */
    method AckResult(group: string, session: string, id: string, ack: AckType, ghost ds: Deliveries) returns (held: bool)
      requires StatesMatch(messages, ds) && Numbered(Plain(messages))
      modifies this`messages
      ensures Plain(messages) == old(Plain(messages))
      ensures StatesMatch(messages, Settle(ds, group, session, Target(Plain(messages), id), ack))
      ensures held == Held(ds, group, session, Target(Plain(messages), id))
    {
      var p := FindHeld(group, session, id, ds);
      if p.None? {
        return false;
      }
      var i := p.value;
      assert Says(messages[i], ds, group);
      var state := messages[i].StateOf(group);
      state := state.(
        state := (match ack case Accept => IsAccepted case Release => IsAvailable case Reject => IsRejected),
        sessionId := None);
      StateWritten(messages, i, group, state, ds);
      messages := messages[i := Written(messages[i], group, state)];
      held := true;
    }

    method AckResults(group: string, session: string, entries: seq<(string, AckType)>, ghost ds: Deliveries) returns (results: seq<bool>)
      requires StatesMatch(messages, ds) && Numbered(Plain(messages))
      modifies this`messages
      ensures Plain(messages) == old(Plain(messages))
      ensures StatesMatch(messages, SettleAll(ds, group, session, Named(Plain(messages), entries)))
      ensures results == Answers(ds, group, session, Named(Plain(messages), entries))
    {
      ghost var plain := Plain(messages);
      ghost var named := Named(plain, entries);
      results := [];
      for k := 0 to |entries|
        invariant Plain(messages) == plain
        invariant StatesMatch(messages, SettleAll(ds, group, session, named[..k]))
        invariant results == Answers(ds, group, session, named[..k])
      {
        assert named[..k + 1][..k] == named[..k];
        var held := AckResult(group, session, entries[k].0, entries[k].1, SettleAll(ds, group, session, named[..k]));
        results := results + [held];
      }
      assert named[..|entries|] == named;
    }

    method QueueAcknowledge(session: string, entries: seq<(string, AckType)>) returns (r: Result<seq<bool>, ErrorKind>)
      requires Valid()
      modifies this
      ensures Valid() && (model, r) == Acknowledge(old(model), session, Named(old(model).messages, entries))
    {
      if session !in queueSessions {
        return Err(InvalidArgument);
      }
      StepKeeps(model, Acknowledges(session, Named(model.messages, entries)));
      var results := AckResults(queueSessions[session].group, session, entries, model.deliveries);
      model := Acknowledge(model, session, Named(model.messages, entries)).0;
      r := Ok(results);
    }

    method QueueRenew(session: string, ids: seq<string>) returns (r: Result<seq<bool>, ErrorKind>)
      requires Valid()
      ensures r == Renew(model, session, Targets(model.messages, ids))
    {
      if session !in queueSessions {
        return Err(InvalidArgument);
      }
      var group := queueSessions[session].group;
      var results: seq<bool> := [];
      ghost var targets := Targets(model.messages, ids);
      for k := 0 to |ids|
        invariant results == Renewals(model.deliveries, group, session, targets[..k])
      {
        assert targets[..k + 1][..k] == targets[..k];
        var p := FindHeld(group, session, ids[k], model.deliveries);
        results := results + [p.Some?];
      }
      assert targets[..|ids|] == targets;
      r := Ok(results);
    }
  }

  ghost function Named(messages: seq<Message>, entries: seq<(string, AckType)>): seq<AckEntry> {
    seq(|entries|, k requires 0 <= k < |entries| => (Target(messages, entries[k].0), entries[k].1))
  }

  ghost function Targets(messages: seq<Message>, ids: seq<string>): seq<Option<Coordinate>> {
    seq(|ids|, k requires 0 <= k < |ids| => Target(messages, ids[k]))
  }

  /** Each message handed out with its own count plus one. */
  ghost predicate Counted(handed: seq<(Message, nat)>, chosen: seq<Message>, ds: Deliveries, group: string) {
    && |handed| == |chosen|
    && forall k | 0 <= k < |chosen| ::
      handed[k] == (chosen[k], Bump(CONFIG.countLimit, DeliveryAt(ds, group, chosen[k].At()).count))
  }

  lemma SeenAsOffered(s: StoredMessage, ds: Deliveries, now: Deliveries, topic: string, group: string)
    requires Says(s, now, group) && DeliveryAt(now, group, s.message.At()) == DeliveryAt(ds, group, s.message.At())
    ensures Offered(ds, topic, group, s.message) <==> s.message.topic == topic && s.StateOf(group).state == IsAvailable
  {
  }

  lemma TakeNone(ds: Deliveries, group: string, session: string)
    ensures TakeAll(CONFIG, ds, group, session, []) == ds
  {
  }

  lemma TakeOneMore(ds: Deliveries, group: string, session: string, chosen: seq<Message>, message: Message)
    ensures TakeAll(CONFIG, ds, group, session, chosen + [message]) ==
            Take(CONFIG, TakeAll(CONFIG, ds, group, session, chosen), group, session, message)
  {
    assert (chosen + [message])[..|chosen|] == chosen;
  }

  /** Taking what was chosen among the earlier messages does not touch the next one. */
  lemma NotChosenYet(ds: Deliveries, plain: seq<Message>, i: nat, topic: string, group: string, max: nat, session: string)
    requires Numbered(plain) && i < |plain|
    ensures DeliveryAt(TakeAll(CONFIG, ds, group, session, Chosen(ds, plain[..i], topic, group, max)), group, plain[i].At()) ==
            DeliveryAt(ds, group, plain[i].At())
  {
    var chosen := Chosen(ds, plain[..i], topic, group, max);
    forall k | 0 <= k < |chosen| ensures chosen[k].At() != plain[i].At() {
      ChosenAreOffered(ds, plain[..i], topic, group, max, k);
      var at :| 0 <= at < i && plain[..i][at] == chosen[k];
      CoordinatesAreUnique(plain, at, i);
    }
    TakeAllElsewhere(CONFIG, ds, group, session, chosen, group, plain[i].At());
  }
}
