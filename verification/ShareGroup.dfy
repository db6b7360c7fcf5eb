/** What a mock share group means. */
module ShareGroup {
  import opened Wrappers
  import opened Records
  import opened Text

  // A map from a group and a coordinate to a disposition and a delivery count, messages in publish
  // order, and sessions. Both mocks are proved against it.

  type Coordinate = (string, int, int)

  datatype Disposition = Available | Acquired(session: string) | Accepted | Rejected

  datatype Delivery = Delivery(disposition: Disposition, count: nat)

  datatype Message = Message(topic: string, partition: int, offset: int, value: seq<Byte>)
  {
    function At(): Coordinate { (topic, partition, offset) }
  }

  datatype SessionInfo = SessionInfo(topic: string, group: string, maxMessages: nat)

  /** What the two mocks differ in: how they name sessions and where their counters stop, if they do. */
  datatype Config = Config(prefix: string, countLimit: nat, sessionLimit: Option<nat>)

  type Deliveries = map<(string, Coordinate), Delivery>

  datatype Model = Model(
    config: Config,
    messages: seq<Message>,
    deliveries: Deliveries,
    sessions: map<string, SessionInfo>,
    started: nat)

  datatype ErrorKind = InvalidArgument | NotFound

  datatype AckType = Accept | Release | Reject

  const SUPPORTED_QUEUE_LOCK_DURATION_MS := 30_000

  function Empty(config: Config): Model { Model(config, [], map[], map[], 0) }

  function DeliveryAt(ds: Deliveries, group: string, c: Coordinate): Delivery {
    if (group, c) in ds then ds[(group, c)] else Delivery(Available, 0)
  }

  // ---------- publishing ----------

  function CountTopic(messages: seq<Message>, topic: string): nat {
    if messages == [] then 0
    else CountTopic(messages[..|messages| - 1], topic) + if messages[|messages| - 1].topic == topic then 1 else 0
  }

  function Publish(m: Model, topic: string, value: seq<Byte>): (Model, Result<int, ErrorKind>) {
    if topic == "" then (m, Err(InvalidArgument))
    else if topic == "__missing_topic" then (m, Err(NotFound))
    else
      var offset := CountTopic(m.messages, topic);
      (m.(messages := m.messages + [Message(topic, 0, offset, value)]), Ok(offset))
  }

  // ---------- acquiring ----------

  /** The name of the `n`-th session; once the counter stops, the last name is given out again. */
  function Name(config: Config, n: nat): string {
    config.prefix + Decimal(if config.sessionLimit.Some? && n > config.sessionLimit.value then config.sessionLimit.value else n)
  }

  function Clamp(max: nat): nat { if max < 1 then 1 else if max > 500 then 500 else max }

  function Session(m: Model, topic: string, group: string, max: nat, requested: string): (Model, Result<string, ErrorKind>) {
    if requested == "" then
      var id := Name(m.config, m.started + 1);
      (m.(sessions := m.sessions[id := SessionInfo(topic, group, Clamp(max))], started := m.started + 1), Ok(id))
    else if requested !in m.sessions then (m, Err(InvalidArgument))
    else
      var info := m.sessions[requested];
      if info.topic != topic || info.group != group then (m, Err(InvalidArgument))
      else if max != 0 && Clamp(max) != info.maxMessages then (m, Err(InvalidArgument))
      else (m, Ok(requested))
  }

  predicate Offered(ds: Deliveries, topic: string, group: string, message: Message) {
    message.topic == topic && DeliveryAt(ds, group, message.At()).disposition == Available
  }

  /** The first `max` messages of the topic that the group may take. */
  function Chosen(ds: Deliveries, messages: seq<Message>, topic: string, group: string, max: nat): (chosen: seq<Message>)
    ensures |chosen| <= max
  {
    if messages == [] then []
    else
      var before := Chosen(ds, messages[..|messages| - 1], topic, group, max);
      var last := messages[|messages| - 1];
      if |before| < max && Offered(ds, topic, group, last) then before + [last] else before
  }

  function Bump(limit: nat, count: nat): nat { if count < limit then count + 1 else count }

  function Take(config: Config, ds: Deliveries, group: string, session: string, message: Message): Deliveries {
    ds[(group, message.At()) := Delivery(Acquired(session), Bump(config.countLimit, DeliveryAt(ds, group, message.At()).count))]
  }

  function TakeAll(config: Config, ds: Deliveries, group: string, session: string, messages: seq<Message>): Deliveries {
    if messages == [] then ds
    else Take(config, TakeAll(config, ds, group, session, messages[..|messages| - 1]), group, session, messages[|messages| - 1])
  }

  /** The messages handed out, each with its delivery count. */
  function Handed(ds: Deliveries, group: string, messages: seq<Message>): seq<(Message, nat)> {
    seq(|messages|, k requires 0 <= k < |messages| => (messages[k], DeliveryAt(ds, group, messages[k].At()).count))
  }

  type Handout = (string, seq<(Message, nat)>)

  function Acquire(m: Model, topic: string, group: string, max: nat, lockMs: nat, requested: string): (Model, Result<Handout, ErrorKind>) {
    if group == "" || topic == "" || lockMs != SUPPORTED_QUEUE_LOCK_DURATION_MS then (m, Err(InvalidArgument))
    else
      var (n, session) := Session(m, topic, group, max, requested);
      if session.Err? then (n, Err(session.error))
      else
        var chosen := Chosen(n.deliveries, n.messages, topic, group, Clamp(max));
        var ds := TakeAll(n.config, n.deliveries, group, session.value, chosen);
        (n.(deliveries := ds), Ok((session.value, Handed(ds, group, chosen))))
  }

  // ---------- answering ----------

  predicate Held(ds: Deliveries, group: string, session: string, target: Option<Coordinate>) {
    target.Some? && DeliveryAt(ds, group, target.value).disposition == Acquired(session)
  }

  function Settled(ack: AckType): Disposition {
    match ack
    case Accept => Accepted
    case Release => Available
    case Reject => Rejected
  }

  function Settle(ds: Deliveries, group: string, session: string, target: Option<Coordinate>, ack: AckType): Deliveries {
    if Held(ds, group, session, target) then
      ds[(group, target.value) := Delivery(Settled(ack), DeliveryAt(ds, group, target.value).count)]
    else ds
  }

  /** An entry names a coordinate, or nothing that was ever published. */
  type AckEntry = (Option<Coordinate>, AckType)

  function SettleAll(ds: Deliveries, group: string, session: string, entries: seq<AckEntry>): Deliveries {
    if entries == [] then ds
    else
      var n := |entries| - 1;
      Settle(SettleAll(ds, group, session, entries[..n]), group, session, entries[n].0, entries[n].1)
  }

  /** Per entry, whether the session held the message when its turn came. */
  function Answers(ds: Deliveries, group: string, session: string, entries: seq<AckEntry>): seq<bool> {
    if entries == [] then []
    else
      var n := |entries| - 1;
      Answers(ds, group, session, entries[..n]) +
      [Held(SettleAll(ds, group, session, entries[..n]), group, session, entries[n].0)]
  }

  function Acknowledge(m: Model, session: string, entries: seq<AckEntry>): (Model, Result<seq<bool>, ErrorKind>) {
    if session !in m.sessions then (m, Err(InvalidArgument))
    else
      var group := m.sessions[session].group;
      (m.(deliveries := SettleAll(m.deliveries, group, session, entries)), Ok(Answers(m.deliveries, group, session, entries)))
  }

  function Renewals(ds: Deliveries, group: string, session: string, targets: seq<Option<Coordinate>>): seq<bool> {
    if targets == [] then []
    else
      var n := |targets| - 1;
      Renewals(ds, group, session, targets[..n]) + [Held(ds, group, session, targets[n])]
  }

  function Renew(m: Model, session: string, targets: seq<Option<Coordinate>>): Result<seq<bool>, ErrorKind> {
    if session !in m.sessions then Err(InvalidArgument)
    else Ok(Renewals(m.deliveries, m.sessions[session].group, session, targets))
  }

  // ---------- runs ----------

  datatype Op =
    | Publishes(topic: string, value: seq<Byte>)
    | Acquires(topic: string, group: string, max: nat, lockMs: nat, requested: string)
    | Acknowledges(session: string, entries: seq<AckEntry>)

  function Step(m: Model, op: Op): Model {
    match op
    case Publishes(topic, value) => Publish(m, topic, value).0
    case Acquires(topic, group, max, lockMs, requested) => Acquire(m, topic, group, max, lockMs, requested).0
    case Acknowledges(session, entries) => Acknowledge(m, session, entries).0
  }

  function Run(m: Model, ops: seq<Op>): Model {
    if ops == [] then m else Step(Run(m, ops[..|ops| - 1]), ops[|ops| - 1])
  }

  /** Offsets count the earlier messages of the topic. */
  predicate Numbered(messages: seq<Message>) {
    forall k | 0 <= k < |messages| ::
      messages[k].partition == 0 && messages[k].offset == CountTopic(messages[..k], messages[k].topic)
  }

  /** The `n`-th session gets a name of its own. */
  predicate OwnName(config: Config, n: nat) {
    config.sessionLimit.None? || n <= config.sessionLimit.value
  }

  /** A session name that has not been given out yet names nothing. */
  ghost predicate NamesAreFree(m: Model) {
    forall n: nat | n > m.started && OwnName(m.config, n) :: Name(m.config, n) !in m.sessions
  }

  /** Whoever holds a message is a session of the same group and topic. */
  ghost predicate HeldBySessions(m: Model) {
    forall g: string, c: Coordinate | DeliveryAt(m.deliveries, g, c).disposition.Acquired? ::
      SessionOf(m, DeliveryAt(m.deliveries, g, c).disposition.session, g, c.0)
  }

  predicate SessionOf(m: Model, session: string, group: string, topic: string) {
    session in m.sessions && m.sessions[session].group == group && m.sessions[session].topic == topic
  }

  /** The offset has been given out. */
  predicate Published(messages: seq<Message>, c: Coordinate) {
    c.1 == 0 && 0 <= c.2 < CountTopic(messages, c.0)
  }

  /** Nothing is recorded about a message before it is published. */
  ghost predicate OnlyPublished(m: Model) {
    forall g: string, c: Coordinate | DeliveryAt(m.deliveries, g, c) != Delivery(Available, 0) :: Published(m.messages, c)
  }

  ghost predicate Inv(m: Model) {
    && Numbered(m.messages) && OnlyPublished(m)
    && (OwnName(m.config, m.started) ==> NamesAreFree(m) && HeldBySessions(m))
  }

  lemma {:induction false} CountGrows(messages: seq<Message>, i: nat, j: nat)
    requires i < j <= |messages|
    ensures CountTopic(messages[..i], messages[i].topic) < CountTopic(messages[..j], messages[i].topic)
    decreases j
  {
    assert messages[..j][..j - 1] == messages[..j - 1];
    if j > i + 1 { CountGrows(messages, i, j - 1); }
  }

  /** No two messages share a coordinate. */
  lemma CoordinatesAreUnique(messages: seq<Message>, i: nat, j: nat)
    requires Numbered(messages) && i < j < |messages|
    ensures messages[i].At() != messages[j].At()
  {
    if messages[i].topic == messages[j].topic { CountGrows(messages, i, j); }
  }

  lemma NumberedGrows(messages: seq<Message>, topic: string, value: seq<Byte>)
    requires Numbered(messages)
    ensures Numbered(messages + [Message(topic, 0, CountTopic(messages, topic), value)])
  {
    var all := messages + [Message(topic, 0, CountTopic(messages, topic), value)];
    forall k | 0 <= k < |all|
      ensures all[k].partition == 0 && all[k].offset == CountTopic(all[..k], all[k].topic)
    {
      if k < |messages| { assert all[..k] == messages[..k]; } else { assert all[..k] == messages; }
    }
  }

  // ---------- what acquiring does ----------

  lemma NumberedPrefix(messages: seq<Message>, n: nat)
    requires Numbered(messages) && n <= |messages|
    ensures Numbered(messages[..n])
  {
    forall k | 0 <= k < n ensures messages[..n][..k] == messages[..k] { }
  }

  /** Only offered messages are chosen, and all are from the log. */
  lemma {:induction false} ChosenAreOffered(ds: Deliveries, messages: seq<Message>, topic: string, group: string, max: nat, k: nat)
    requires k < |Chosen(ds, messages, topic, group, max)|
    ensures var c := Chosen(ds, messages, topic, group, max)[k]; Offered(ds, topic, group, c) && c in messages
    decreases |messages|
  {
    var n := |messages| - 1;
    var before := Chosen(ds, messages[..n], topic, group, max);
    if k < |before| { ChosenAreOffered(ds, messages[..n], topic, group, max, k); }
  }

  lemma {:induction false} ChosenAreDistinct(ds: Deliveries, messages: seq<Message>, topic: string, group: string, max: nat, i: nat, j: nat)
    requires Numbered(messages) && i < j < |Chosen(ds, messages, topic, group, max)|
    ensures var chosen := Chosen(ds, messages, topic, group, max); chosen[i].At() != chosen[j].At()
    decreases |messages|
  {
    var n := |messages| - 1;
    NumberedPrefix(messages, n);
    var before := Chosen(ds, messages[..n], topic, group, max);
    if j < |before| {
      ChosenAreDistinct(ds, messages[..n], topic, group, max, i, j);
    } else {
      ChosenAreOffered(ds, messages[..n], topic, group, max, i);
      var at :| 0 <= at < n && messages[..n][at] == before[i];
      CoordinatesAreUnique(messages, at, n);
    }
  }

  /** While messages remain to be offered and the limit is not reached, the next one is chosen. */
  lemma {:induction false} ChosenMissNone(ds: Deliveries, messages: seq<Message>, topic: string, group: string, max: nat, k: nat)
    requires k < |messages| && Offered(ds, topic, group, messages[k])
    requires |Chosen(ds, messages, topic, group, max)| < max
    ensures messages[k] in Chosen(ds, messages, topic, group, max)
    decreases |messages|
  {
    var n := |messages| - 1;
    if k < n { ChosenMissNone(ds, messages[..n], topic, group, max, k); }
  }

  ghost predicate Distinct(messages: seq<Message>) {
    forall i, j | 0 <= i < j < |messages| :: messages[i].At() != messages[j].At()
  }

  lemma {:induction false} TakeAllElsewhere(config: Config, ds: Deliveries, group: string, session: string, messages: seq<Message>, g: string, c: Coordinate)
    requires g != group || forall k | 0 <= k < |messages| :: messages[k].At() != c
    ensures DeliveryAt(TakeAll(config, ds, group, session, messages), g, c) == DeliveryAt(ds, g, c)
    decreases |messages|
  {
    if messages != [] {
      var n := |messages| - 1;
      TakeAllElsewhere(config, ds, group, session, messages[..n], g, c);
      assert g != group || messages[n].At() != c;
    }
  }

  lemma {:induction false} TakeAllThere(config: Config, ds: Deliveries, group: string, session: string, messages: seq<Message>, k: nat)
    requires Distinct(messages) && k < |messages|
    ensures DeliveryAt(TakeAll(config, ds, group, session, messages), group, messages[k].At()) ==
      Delivery(Acquired(session), Bump(config.countLimit, DeliveryAt(ds, group, messages[k].At()).count))
    decreases |messages|
  {
    var n := |messages| - 1;
    if k < n {
      assert Distinct(messages[..n]);
      TakeAllThere(config, ds, group, session, messages[..n], k);
      assert messages[k].At() != messages[n].At();
    } else {
      forall i | 0 <= i < n ensures messages[..n][i].At() != messages[n].At() { }
      TakeAllElsewhere(config, ds, group, session, messages[..n], group, messages[n].At());
    }
  }

  // ---------- what any operation can do to a delivery ----------

  predicate Taken(m: Model, op: Op, g: string, c: Coordinate, before: Delivery, after: Delivery) {
    && op.Acquires? && op.group == g && op.topic == c.0 && Published(m.messages, c)
    && before.disposition == Available
    && after.disposition.Acquired? && SessionOf(Step(m, op), after.disposition.session, g, c.0)
    && after.count == Bump(m.config.countLimit, before.count)
  }

  predicate AnsweredBy(m: Model, session: string, g: string, before: Delivery, after: Delivery) {
    && session in m.sessions && m.sessions[session].group == g
    && before.disposition == Acquired(session)
    && !after.disposition.Acquired? && after.count == before.count
  }

  predicate Answered(m: Model, op: Op, g: string, before: Delivery, after: Delivery) {
    op.Acknowledges? && AnsweredBy(m, op.session, g, before, after)
  }

  lemma {:induction false} SettleAllAt(m: Model, session: string, entries: seq<AckEntry>, g: string, c: Coordinate)
    requires session in m.sessions
    ensures var before := DeliveryAt(m.deliveries, g, c);
      var after := DeliveryAt(SettleAll(m.deliveries, m.sessions[session].group, session, entries), g, c);
      after == before || AnsweredBy(m, session, g, before, after)
    decreases |entries|
  {
    if entries != [] {
      SettleAllAt(m, session, entries[..|entries| - 1], g, c);
    }
  }

  lemma SessionIsRight(m: Model, topic: string, group: string, max: nat, requested: string)
    requires Session(m, topic, group, max, requested).1.Ok?
    ensures var (n, id) := Session(m, topic, group, max, requested);
      && SessionOf(n, id.value, group, topic) && n.deliveries == m.deliveries && n.messages == m.messages && n.config == m.config
  {
  }

  lemma AcquireAt(m: Model, op: Op, g: string, c: Coordinate)
    requires Inv(m) && op.Acquires?
    ensures var before, after := DeliveryAt(m.deliveries, g, c), DeliveryAt(Step(m, op).deliveries, g, c);
      after == before || Taken(m, op, g, c, before, after)
  {
    var (n, session) := Session(m, op.topic, op.group, op.max, op.requested);
    if op.group != "" && op.topic != "" && op.lockMs == SUPPORTED_QUEUE_LOCK_DURATION_MS && session.Ok? {
      SessionIsRight(m, op.topic, op.group, op.max, op.requested);
      TakenAt(m, n, op, session.value, g, c);
    }
  }

  lemma MessagesArePublished(messages: seq<Message>, message: Message)
    requires Numbered(messages) && message in messages
    ensures Published(messages, message.At())
  {
    var k :| 0 <= k < |messages| && messages[k] == message;
    CountGrows(messages, k, |messages|);
    assert messages[..|messages|] == messages;
  }

  lemma TakenAt(m: Model, n: Model, op: Op, session: string, g: string, c: Coordinate)
    requires Inv(m) && op.Acquires? && n.messages == m.messages && n.deliveries == m.deliveries && n.config == m.config
    requires SessionOf(n, session, op.group, op.topic)
    requires Step(m, op) == n.(deliveries :=
      TakeAll(n.config, n.deliveries, op.group, session, Chosen(n.deliveries, n.messages, op.topic, op.group, Clamp(op.max))))
    ensures var before, after := DeliveryAt(m.deliveries, g, c), DeliveryAt(Step(m, op).deliveries, g, c);
      after == before || Taken(m, op, g, c, before, after)
  {
    var chosen := Chosen(m.deliveries, m.messages, op.topic, op.group, Clamp(op.max));
    if k: nat :| k < |chosen| && chosen[k].At() == c && g == op.group {
      ChosenAreOffered(m.deliveries, m.messages, op.topic, op.group, Clamp(op.max), k);
      forall i, j | 0 <= i < j < |chosen| ensures chosen[i].At() != chosen[j].At() {
        ChosenAreDistinct(m.deliveries, m.messages, op.topic, op.group, Clamp(op.max), i, j);
      }
      TakeAllThere(m.config, m.deliveries, op.group, session, chosen, k);
      MessagesArePublished(m.messages, chosen[k]);
    } else {
      TakeAllElsewhere(m.config, m.deliveries, op.group, session, chosen, g, c);
    }
  }

  /** An operation leaves a delivery alone, takes it when it is available, or answers it for the session that holds it. */
  lemma HowDeliveriesChange(m: Model, op: Op, g: string, c: Coordinate)
    requires Inv(m)
    ensures var before, after := DeliveryAt(m.deliveries, g, c), DeliveryAt(Step(m, op).deliveries, g, c);
      after == before || Taken(m, op, g, c, before, after) || Answered(m, op, g, before, after)
  {
    if op.Acquires? {
      AcquireAt(m, op, g, c);
    } else if op.Acknowledges? && op.session in m.sessions {
      SettleAllAt(m, op.session, op.entries, g, c);
    }
  }

  // ---------- what every run keeps ----------

  lemma NamesDiffer(config: Config, a: nat, b: nat)
    requires Name(config, a) == Name(config, b) && OwnName(config, a) && OwnName(config, b)
    ensures a == b
  {
    var n := |config.prefix|;
    assert Name(config, a)[n..] == Decimal(a) && Name(config, b)[n..] == Decimal(b);
    DecimalInjective(a, b);
  }

  /** Sessions are never lost or changed, and a new one gets a new name, as long as the counter counts. */
  lemma SessionsGrow(m: Model, op: Op)
    requires NamesAreFree(m) && OwnName(m.config, Step(m, op).started)
    ensures forall id | id in m.sessions :: id in Step(m, op).sessions && Step(m, op).sessions[id] == m.sessions[id]
    ensures NamesAreFree(Step(m, op))
  {
    var t := Step(m, op);
    if t.started == m.started + 1 {
      forall n: nat | n > t.started && OwnName(m.config, n) ensures Name(m.config, n) !in t.sessions {
        if Name(m.config, n) == Name(m.config, t.started) { NamesDiffer(m.config, n, t.started); }
      }
    }
  }

  lemma StepKeeps(m: Model, op: Op)
    requires Inv(m)
    ensures Inv(Step(m, op))
  {
    var t := Step(m, op);
    if op.Publishes? { NumberedGrows(m.messages, op.topic, op.value); }
    if OwnName(t.config, t.started) { HoldersStay(m, op); }
    forall g: string, c: Coordinate | DeliveryAt(t.deliveries, g, c) != Delivery(Available, 0)
      ensures Published(t.messages, c)
    {
      HowDeliveriesChange(m, op, g, c);
      MessagesGrow(m, op, c.0);
    }
  }

  lemma HoldersStay(m: Model, op: Op)
    requires Inv(m) && OwnName(m.config, Step(m, op).started)
    ensures NamesAreFree(Step(m, op)) && HeldBySessions(Step(m, op))
  {
    var t := Step(m, op);
    SessionsGrow(m, op);
    forall g: string, c: Coordinate | DeliveryAt(t.deliveries, g, c).disposition.Acquired?
      ensures SessionOf(t, DeliveryAt(t.deliveries, g, c).disposition.session, g, c.0)
    {
      HowDeliveriesChange(m, op, g, c);
    }
  }

  lemma MessagesGrow(m: Model, op: Op, topic: string)
    ensures CountTopic(Step(m, op).messages, topic) >= CountTopic(m.messages, topic)
  {
    if Step(m, op).messages != m.messages { assert Step(m, op).messages[..|m.messages|] == m.messages; }
  }

  lemma {:induction false} RunKeeps(config: Config, ops: seq<Op>)
    ensures Inv(Run(Empty(config), ops))
    decreases |ops|
  {
    if ops != [] {
      RunKeeps(config, ops[..|ops| - 1]);
      StepKeeps(Run(Empty(config), ops[..|ops| - 1]), ops[|ops| - 1]);
    }
  }

  lemma {:induction false} InvLasts(m: Model, ops: seq<Op>)
    requires Inv(m)
    ensures Inv(Run(m, ops))
    decreases |ops|
  {
    if ops != [] {
      InvLasts(m, ops[..|ops| - 1]);
      StepKeeps(Run(m, ops[..|ops| - 1]), ops[|ops| - 1]);
    }
  }

  /** Accepted and rejected are for ever. */
  lemma {:induction false} TerminalIsAbsorbing(m: Model, ops: seq<Op>, g: string, c: Coordinate)
    requires Inv(m) && DeliveryAt(m.deliveries, g, c).disposition in {Accepted, Rejected}
    ensures DeliveryAt(Run(m, ops).deliveries, g, c) == DeliveryAt(m.deliveries, g, c)
    decreases |ops|
  {
    if ops != [] {
      var before := ops[..|ops| - 1];
      InvLasts(m, before);
      TerminalIsAbsorbing(m, before, g, c);
      HowDeliveriesChange(Run(m, before), ops[|ops| - 1], g, c);
    }
  }

  /** A session keeps what it holds until it answers: no one else can take, answer or count it. */
  lemma {:induction false} LeaseLasts(m: Model, ops: seq<Op>, g: string, c: Coordinate, session: string)
    requires Inv(m) && DeliveryAt(m.deliveries, g, c).disposition == Acquired(session)
    requires forall k | 0 <= k < |ops| && ops[k].Acknowledges? :: ops[k].session != session
    ensures DeliveryAt(Run(m, ops).deliveries, g, c) == DeliveryAt(m.deliveries, g, c)
    decreases |ops|
  {
    if ops != [] {
      var before := ops[..|ops| - 1];
      InvLasts(m, before);
      LeaseLasts(m, before, g, c, session);
      HowDeliveriesChange(Run(m, before), ops[|ops| - 1], g, c);
    }
  }

  /** The group an operation can act on. */
  function GroupOf(m: Model, op: Op): Option<string> {
    match op
    case Publishes(_, _) => None
    case Acquires(_, group, _, _, _) => Some(group)
    case Acknowledges(session, _) => if session in m.sessions then Some(m.sessions[session].group) else None
  }

  /** Groups do not see each other. */
  lemma {:induction false} GroupsAreIndependent(m: Model, ops: seq<Op>, g: string, c: Coordinate)
    requires Inv(m)
    requires forall k | 0 <= k < |ops| :: GroupOf(Run(m, ops[..k]), ops[k]) != Some(g)
    ensures DeliveryAt(Run(m, ops).deliveries, g, c) == DeliveryAt(m.deliveries, g, c)
    decreases |ops|
  {
    hide Step, Inv;
    if ops != [] {
      var n := |ops| - 1;
      var before := ops[..n];
      InvLasts(m, before);
      forall k | 0 <= k < n ensures GroupOf(Run(m, before[..k]), before[k]) != Some(g) {
        assert before[..k] == ops[..k] && GroupOf(Run(m, ops[..k]), ops[k]) != Some(g);
      }
      GroupsAreIndependent(m, before, g, c);
      HowDeliveriesChange(Run(m, before), ops[n], g, c);
      assert GroupOf(Run(m, ops[..n]), ops[n]) != Some(g);
    }
  }

  // ---------- what a call hands out and settles ----------

  /** The messages of the topic that the group may take, in publish order. */
  function AllOffered(ds: Deliveries, messages: seq<Message>, topic: string, group: string): seq<Message> {
    if messages == [] then []
    else
      var last := messages[|messages| - 1];
      AllOffered(ds, messages[..|messages| - 1], topic, group) + if Offered(ds, topic, group, last) then [last] else []
  }

  function Shorter(max: nat, n: nat): nat { if n < max then n else max }

  /** What is chosen is the beginning of what is offered. */
  lemma {:induction false} ChosenAreFirst(ds: Deliveries, messages: seq<Message>, topic: string, group: string, max: nat)
    ensures var all := AllOffered(ds, messages, topic, group);
      Chosen(ds, messages, topic, group, max) == all[..Shorter(max, |all|)]
    decreases |messages|
  {
    hide Offered;
    if messages != [] { ChosenAreFirst(ds, messages[..|messages| - 1], topic, group, max); }
  }

  /** An acquire may go on with the session it asks for. */
  predicate MayUse(m: Model, topic: string, group: string, max: nat, requested: string) {
    requested == "" || (
      && requested in m.sessions
      && m.sessions[requested].topic == topic && m.sessions[requested].group == group
      && (max == 0 || m.sessions[requested].maxMessages == Shorter(500, max)))
  }

  /**
   When an acquire succeeds and what it hands out: the first available messages of the topic, as
   many as were asked for but one at least and 500 at most, each counted once more. A refused
   acquire changes nothing.
   */
  lemma AcquireIsExact(m: Model, topic: string, group: string, max: nat, requested: string, lockMs: nat)
    requires Numbered(m.messages)
    ensures var (n, r) := Acquire(m, topic, group, max, lockMs, requested);
      && (r.Ok? <==> group != "" && topic != "" && lockMs == 30_000 && MayUse(m, topic, group, max, requested))
      && (r.Err? ==> r.error == InvalidArgument && n == m)
      && (r.Ok? ==>
            var all := AllOffered(m.deliveries, m.messages, topic, group);
            && r.value.0 == (if requested == "" then Name(m.config, m.started + 1) else requested)
            && |r.value.1| == Shorter(Shorter(500, if max == 0 then 1 else max), |all|)
            && forall k | 0 <= k < |r.value.1| ::
                 r.value.1[k] == (all[k], CountedOnce(m.config, DeliveryAt(m.deliveries, group, all[k].At()).count)))
  {
    hide Chosen, TakeAll, AllOffered, Numbered, Name;
    var (n, session) := Session(m, topic, group, max, requested);
    if group != "" && topic != "" && lockMs == SUPPORTED_QUEUE_LOCK_DURATION_MS && session.Ok? {
      SessionIsRight(m, topic, group, max, requested);
      ChosenAreFirst(m.deliveries, m.messages, topic, group, Clamp(max));
      var chosen := Chosen(m.deliveries, m.messages, topic, group, Clamp(max));
      ChosenAreAllDistinct(m.deliveries, m.messages, topic, group, Clamp(max));
      forall k | 0 <= k < |chosen|
        ensures DeliveryAt(TakeAll(m.config, m.deliveries, group, session.value, chosen), group, chosen[k].At()).count ==
                CountedOnce(m.config, DeliveryAt(m.deliveries, group, chosen[k].At()).count)
      {
        TakeAllThere(m.config, m.deliveries, group, session.value, chosen, k);
      }
    }
  }

  /** One more, up to where the counter stops. */
  function CountedOnce(config: Config, count: nat): nat {
    if count >= config.countLimit then count else count + 1
  }

  /** The disposition an acknowledgement leaves, if it finds the message held. */
  predicate SettledAs(ack: AckType, d: Disposition) {
    (ack.Accept? && d.Accepted?) || (ack.Release? && d.Available?) || (ack.Reject? && d.Rejected?)
  }

  /** Entry `i` is the first to name the coordinate. */
  predicate FirstNames(entries: seq<AckEntry>, i: nat, c: Coordinate) {
    i < |entries| && entries[i].0 == Some(c) && forall j | 0 <= j < i :: entries[j].0 != Some(c)
  }

  lemma FirstNamesEarlier(entries: seq<AckEntry>, i: nat, c: Coordinate)
    requires entries != [] && i < |entries| - 1
    ensures FirstNames(entries, i, c) <==> FirstNames(entries[..|entries| - 1], i, c)
  {
    var init := entries[..|entries| - 1];
    assert forall j | 0 <= j <= i :: init[j] == entries[j];
  }

  /** Answering leaves a message as it was unless the session holds it and some entry names it; then the first one settles it. */
  lemma {:induction false} SettleAllIsExact(ds: Deliveries, group: string, session: string, entries: seq<AckEntry>, c: Coordinate)
    ensures var before, after := DeliveryAt(ds, group, c), DeliveryAt(SettleAll(ds, group, session, entries), group, c);
      && (before.disposition != Acquired(session) || (forall i | 0 <= i < |entries| :: entries[i].0 != Some(c)) ==> after == before)
      && (before.disposition == Acquired(session) ==>
            forall i: nat | FirstNames(entries, i, c) :: SettledAs(entries[i].1, after.disposition) && after.count == before.count)
    decreases |entries|
  {
    if entries != [] {
      var n := |entries| - 1;
      SettleAllIsExact(ds, group, session, entries[..n], c);
      forall i: nat | FirstNames(entries, i, c) && i < n ensures FirstNames(entries[..n], i, c) { FirstNamesEarlier(entries, i, c); }
      assert forall i | 0 <= i < n :: entries[..n][i] == entries[i];
    }
  }

  /** An entry is answered without error exactly when the session held the message and the entry is the first to name it. */
  lemma {:induction false} AnswersAreExact(ds: Deliveries, group: string, session: string, entries: seq<AckEntry>, i: nat)
    requires i < |entries|
    ensures |Answers(ds, group, session, entries)| == |entries|
    ensures Answers(ds, group, session, entries)[i] <==>
      exists c :: FirstNames(entries, i, c) && DeliveryAt(ds, group, c).disposition == Acquired(session)
    decreases |entries|
  {
    var n := |entries| - 1;
    if n > 0 { AnswersAreExact(ds, group, session, entries[..n], if i < n then i else 0); }
    if i < n {
      forall c ensures FirstNames(entries, i, c) <==> FirstNames(entries[..n], i, c) { FirstNamesEarlier(entries, i, c); }
    } else if entries[n].0.Some? {
      LastAnswerIsExact(ds, group, session, entries, entries[n].0.value);
    }
  }

  lemma LastAnswerIsExact(ds: Deliveries, group: string, session: string, entries: seq<AckEntry>, c: Coordinate)
    requires entries != [] && entries[|entries| - 1].0 == Some(c)
    ensures Held(SettleAll(ds, group, session, entries[..|entries| - 1]), group, session, Some(c)) <==>
            FirstNames(entries, |entries| - 1, c) && DeliveryAt(ds, group, c).disposition == Acquired(session)
  {
    var n := |entries| - 1;
    var init := entries[..n];
    assert forall i | 0 <= i < n :: init[i] == entries[i];
    SettleAllIsExact(ds, group, session, init, c);
    if i :| 0 <= i < n && init[i].0 == Some(c) {
      var first := FirstOf(init, c, i);
    }
  }

  lemma {:induction false} FirstOf(entries: seq<AckEntry>, c: Coordinate, i: nat) returns (first: nat)
    requires i < |entries| && entries[i].0 == Some(c)
    ensures FirstNames(entries, first, c) && first <= i
  {
    first := i;
    if j :| 0 <= j < i && entries[j].0 == Some(c) { first := FirstOf(entries, c, j); }
  }

  /** A released message is offered again, to every session of its group. */
  lemma ReleasedIsOffered(m: Model, session: string, entries: seq<AckEntry>, message: Message, i: nat)
    requires session in m.sessions && message in m.messages && FirstNames(entries, i, message.At()) && entries[i].1 == Release
    requires DeliveryAt(m.deliveries, m.sessions[session].group, message.At()).disposition == Acquired(session)
    ensures var n := Acknowledge(m, session, entries).0; var group := m.sessions[session].group;
      message in AllOffered(n.deliveries, n.messages, message.topic, group)
  {
    var n := Acknowledge(m, session, entries).0;
    SettleAllIsExact(m.deliveries, m.sessions[session].group, session, entries, message.At());
    OfferedAreAll(n.deliveries, n.messages, message.topic, m.sessions[session].group, message);
  }

  lemma {:induction false} OfferedAreAll(ds: Deliveries, messages: seq<Message>, topic: string, group: string, message: Message)
    ensures message in AllOffered(ds, messages, topic, group) <==> message in messages && Offered(ds, topic, group, message)
    decreases |messages|
  {
    hide Offered;
    if messages != [] { OfferedAreAll(ds, messages[..|messages| - 1], topic, group, message); }
  }

  /** A renewal says of each entry whether the session holds its message, and changes nothing. */
  lemma {:induction false} RenewalsAreExact(ds: Deliveries, group: string, session: string, targets: seq<Option<Coordinate>>, i: nat)
    requires i < |targets|
    ensures |Renewals(ds, group, session, targets)| == |targets|
    ensures Renewals(ds, group, session, targets)[i] <==>
      targets[i].Some? && DeliveryAt(ds, group, targets[i].value).disposition == Acquired(session)
    decreases |targets|
  {
    var n := |targets| - 1;
    if n > 0 { RenewalsAreExact(ds, group, session, targets[..n], if i < n then i else 0); }
  }

  /** Publishing fails for the empty and the missing topic only; otherwise the message is next in its topic. */
  lemma PublishIsExact(m: Model, topic: string, value: seq<Byte>)
    requires Numbered(m.messages)
    ensures var (n, r) := Publish(m, topic, value);
      && (r == Err(InvalidArgument) <==> topic == "") && (r == Err(NotFound) <==> topic == "__missing_topic")
      && (r.Err? ==> n == m)
      && (r.Ok? ==>
            && n == m.(messages := m.messages + [Message(topic, 0, r.value, value)])
            && (forall k | 0 <= k < |m.messages| && m.messages[k].topic == topic :: m.messages[k].offset < r.value)
            && (forall o | 0 <= o < r.value :: exists k | 0 <= k < |m.messages| :: m.messages[k].At() == (topic, 0, o)))
  {
    forall k | 0 <= k < |m.messages| && m.messages[k].topic == topic ensures m.messages[k].offset < CountTopic(m.messages, topic) {
      MessagesArePublished(m.messages, m.messages[k]);
    }
    forall o | 0 <= o < CountTopic(m.messages, topic)
      ensures exists k | 0 <= k < |m.messages| :: m.messages[k].At() == (topic, 0, o)
    {
      var k := MessageAt(m.messages, topic, o);
    }
  }

  lemma {:induction false} MessageAt(messages: seq<Message>, topic: string, o: nat) returns (k: nat)
    requires Numbered(messages) && o < CountTopic(messages, topic)
    ensures k < |messages| && messages[k].At() == (topic, 0, o)
    decreases |messages|
  {
    var n := |messages| - 1;
    NumberedPrefix(messages, n);
    if o < CountTopic(messages[..n], topic) { k := MessageAt(messages[..n], topic, o); } else { k := n; }
  }

  // ---------- lemmas for the mocks ----------

  lemma SessionKeeps(m: Model, topic: string, group: string, max: nat, requested: string)
    requires Inv(m)
    ensures Inv(Session(m, topic, group, max, requested).0)
  {
    var n := Session(m, topic, group, max, requested).0;
    if OwnName(n.config, n.started) {
      forall k: nat | k > n.started && OwnName(m.config, k) ensures Name(m.config, k) !in n.sessions {
        if Name(m.config, k) == Name(m.config, n.started) { NamesDiffer(m.config, k, n.started); }
      }
      forall g: string, c: Coordinate | DeliveryAt(n.deliveries, g, c).disposition.Acquired?
        ensures SessionOf(n, DeliveryAt(n.deliveries, g, c).disposition.session, g, c.0)
      {
        assert SessionOf(m, DeliveryAt(m.deliveries, g, c).disposition.session, g, c.0);
      }
    }
  }

  /**
   A new session leaves every holder a session of the same group and topic exactly when what is
   held under its name, if that was given out before, is of its own group and topic.
   */
  lemma NewSessionKeepsHolders(m: Model, topic: string, group: string, max: nat)
    requires HeldBySessions(m)
    ensures var id := Name(m.config, m.started + 1);
      HeldBySessions(Session(m, topic, group, max, "").0) <==>
      forall g: string, c: Coordinate | DeliveryAt(m.deliveries, g, c).disposition == Acquired(id) :: g == group && c.0 == topic
  {
    hide Name;
    var id, n := Name(m.config, m.started + 1), Session(m, topic, group, max, "").0;
    forall g: string, c: Coordinate | DeliveryAt(m.deliveries, g, c).disposition.Acquired?
      ensures var holder := DeliveryAt(m.deliveries, g, c).disposition.session;
        SessionOf(n, holder, g, c.0) <==> holder != id || (g == group && c.0 == topic)
    {
      assert SessionOf(m, DeliveryAt(m.deliveries, g, c).disposition.session, g, c.0);
    }
  }

  lemma ChosenAreAllDistinct(ds: Deliveries, messages: seq<Message>, topic: string, group: string, max: nat)
    requires Numbered(messages)
    ensures Distinct(Chosen(ds, messages, topic, group, max))
  {
    var chosen := Chosen(ds, messages, topic, group, max);
    forall i, j | 0 <= i < j < |chosen| ensures chosen[i].At() != chosen[j].At() {
      ChosenAreDistinct(ds, messages, topic, group, max, i, j);
    }
  }

  /** Taking the messages before one does not touch it. */
  lemma NotYetTaken(config: Config, ds: Deliveries, group: string, session: string, messages: seq<Message>, k: nat)
    requires Distinct(messages) && k < |messages|
    ensures DeliveryAt(TakeAll(config, ds, group, session, messages[..k]), group, messages[k].At()) ==
            DeliveryAt(ds, group, messages[k].At())
  {
    forall i | 0 <= i < k ensures messages[..k][i].At() != messages[k].At() { }
    TakeAllElsewhere(config, ds, group, session, messages[..k], group, messages[k].At());
  }

  /** The counts handed out are each message's own count plus one. */
  lemma HandedCounts(config: Config, ds: Deliveries, group: string, session: string, messages: seq<Message>, handed: seq<(Message, nat)>)
    requires Distinct(messages) && |handed| == |messages|
    requires forall k | 0 <= k < |messages| ::
      handed[k] == (messages[k], Bump(config.countLimit, DeliveryAt(ds, group, messages[k].At()).count))
    ensures handed == Handed(TakeAll(config, ds, group, session, messages), group, messages)
  {
    forall k | 0 <= k < |messages|
      ensures handed[k] == Handed(TakeAll(config, ds, group, session, messages), group, messages)[k]
    {
      TakeAllThere(config, ds, group, session, messages, k);
    }
  }
}
