/**
 The bounded, ordered delivery window of `send` (handlers.rs): the window itself, the record
 loop, and every order in which deliveries can complete.
 */
module SendWindow {
  import opened Wrappers

  const SEND_WINDOW_CAPACITY: nat := 64

  /** A record whose topic the caller may not write, one with an idempotency key, and any other. */
  datatype Record<V> = Denied(error: V) | Keyed | Plain

  // ---------- the window ----------

  /** A future is the value it will yield; when it yields is the subject of the next section. */
  class Window<V> {
    var pending: seq<V>
    var results: seq<V>

    constructor ()
      ensures pending == [] && results == []
    {
      pending, results := [], [];
    }

    /** Everything pushed so far, in order. */
    ghost function Pushed(): seq<V>
      reads this
    {
      results + pending
    }

    method Push(delivery: V)
      requires |pending| < SEND_WINDOW_CAPACITY
      modifies this
      ensures Pushed() == old(Pushed()) + [delivery]
      ensures |pending| < SEND_WINDOW_CAPACITY
      ensures |old(pending)| + 1 < SEND_WINDOW_CAPACITY ==> results == old(results)
    {
      pending := pending + [delivery];
      if |pending| == SEND_WINDOW_CAPACITY {
        Drain();
      }
    }

    method Drain()
      modifies this
      ensures pending == [] && results == old(Pushed())
    {
      while pending != []
        invariant Pushed() == old(Pushed())
        decreases |pending|
      {
        results, pending := results + [pending[0]], pending[1..];
      }
    }
  }

  /** The record loop of `send`, given what each record's delivery will yield. */
  method SendAll<V>(records: seq<Record<V>>, answer: nat -> V) returns (results: seq<V>)
    ensures |results| == |records|
    ensures forall i | 0 <= i < |records| :: results[i] == if records[i].Denied? then records[i].error else answer(i)
  {
    var window := new Window<V>();
    for i := 0 to |records|
      invariant fresh(window) && |window.pending| < SEND_WINDOW_CAPACITY
      invariant |window.Pushed()| == i
      invariant forall k | 0 <= k < i :: window.Pushed()[k] == if records[k].Denied? then records[k].error else answer(k)
    {
      match records[i]
      case Denied(error) => window.Push(error);
      case Keyed =>
        window.Drain();
        window.results := window.results + [answer(i)];
      case Plain => window.Push(answer(i));
    }
    window.Drain();
    results := window.results;
  }

  // ---------- every completion order ----------

  /** A pending delivery of a record, and its value once it has completed. */
  datatype Slot<V> = Slot(record: nat, value: Option<V>)

  datatype After = NextRecord | ProduceKeyed | Finish

  datatype Phase = Ready | Draining(after: After) | Producing | Finished

  datatype State<V> = State(
    records: seq<Record<V>>,
    at: nat,
    phase: Phase,
    pending: seq<Slot<V>>,
    results: seq<V>,
    handed: seq<nat>,         // records given to the producer, in order
    outcome: map<nat, V>)     // what each record's delivery came to

  datatype Event<V> =
    | Advance                       // the record loop goes on
    | Complete(slot: nat, value: V) // a pending delivery completes
    | Yield                         // the window hands over its first delivery
    | Produced(value: V)            // the keyed produce completes

  function Started<V>(records: seq<Record<V>>): State<V> { State(records, 0, Ready, [], [], [], map[]) }

  function Push<V>(s: State<V>, slot: Slot<V>): State<V> {
    var pending := s.pending + [slot];
    s.(at := s.at + 1, pending := pending,
       phase := if |pending| == SEND_WINDOW_CAPACITY then Draining(NextRecord) else Ready)
  }

  function NextRecordStep<V>(s: State<V>): State<V> {
    if s.at >= |s.records| then s.(phase := Draining(Finish))
    else
      match s.records[s.at]
      case Denied(error) => Push(s, Slot(s.at, Some(error))).(outcome := s.outcome[s.at := error])
      case Plain => Push(s, Slot(s.at, None)).(handed := s.handed + [s.at])
      case Keyed => s.(phase := Draining(ProduceKeyed))
  }

  function DrainedStep<V>(s: State<V>, after: After): State<V> {
    match after
    case NextRecord => s.(phase := Ready)
    case ProduceKeyed => s.(phase := Producing, handed := s.handed + [s.at])
    case Finish => s.(phase := Finished)
  }

  /** One step; an event that is not possible does nothing. */
  function Step<V>(s: State<V>, e: Event<V>): State<V> {
    match e
    case Advance =>
      if s.phase.Ready? then NextRecordStep(s)
      else if s.phase.Draining? && s.pending == [] then DrainedStep(s, s.phase.after)
      else s
    case Complete(k, v) =>
      if k < |s.pending| && s.pending[k].value.None? then
        s.(pending := s.pending[k := s.pending[k].(value := Some(v))], outcome := s.outcome[s.pending[k].record := v])
      else s
    case Yield =>
      if s.phase.Draining? && s.pending != [] && s.pending[0].value.Some? then
        s.(results := s.results + [s.pending[0].value.value], pending := s.pending[1..])
      else s
    case Produced(v) =>
      if s.phase.Producing? then
        s.(results := s.results + [v], outcome := s.outcome[s.at := v], at := s.at + 1, phase := Ready)
      else s
  }

  function Run<V>(s: State<V>, events: seq<Event<V>>): State<V> {
    if events == [] then s else Step(Run(s, events[..|events| - 1]), events[|events| - 1])
  }

  /** The records before `n` that are not denied. */
  function Permitted<V>(records: seq<Record<V>>, n: nat): seq<nat>
    requires n <= |records|
  {
    if n == 0 then [] else Permitted(records, n - 1) + if records[n - 1].Denied? then [] else [n - 1]
  }

  // ---------- what every run keeps ----------

  ghost predicate SlotOk<V>(s: State<V>, k: nat)
    requires k < |s.pending|
  {
    && s.pending[k].record == |s.results| + k
    && |s.results| + k < |s.records|
    && (s.records[|s.results| + k].Denied? ==> s.pending[k].value.Some?)
    && (s.pending[k].value.Some? ==> |s.results| + k in s.outcome && s.outcome[|s.results| + k] == s.pending[k].value.value)
  }

  ghost predicate PhaseOk<V>(s: State<V>) {
    match s.phase
    case Ready => |s.pending| < SEND_WINDOW_CAPACITY
    case Draining(NextRecord) => true
    case Draining(ProduceKeyed) => s.at < |s.records| && s.records[s.at].Keyed?
    case Draining(Finish) => s.at == |s.records|
    case Producing => s.pending == [] && s.at < |s.records| && s.records[s.at].Keyed?
    case Finished => s.pending == [] && s.at == |s.records|
  }

  ghost predicate Inv<V(!new)>(s: State<V>) {
    && s.at <= |s.records| && |s.results| + |s.pending| == s.at && |s.pending| <= SEND_WINDOW_CAPACITY
    && PhaseOk(s)
    && (forall k: nat | k < |s.pending| :: SlotOk(s, k))
    && (forall i: nat | i < |s.results| :: i in s.outcome && s.results[i] == s.outcome[i])
    && (forall i: nat | i < s.at && s.records[i].Denied? :: i in s.outcome && s.outcome[i] == s.records[i].error)
    && s.handed == Permitted(s.records, s.at) + if s.phase.Producing? then [s.at] else []
  }

  lemma PushKeeps<V(!new)>(s: State<V>, t: State<V>, value: Option<V>)
    requires Inv(s) && s.phase.Ready? && s.at < |s.records| && !s.records[s.at].Keyed?
    requires s.records[s.at].Denied? ==> value == Some(s.records[s.at].error)
    requires t == Push(s, Slot(s.at, value)).(
      outcome := if value.Some? then s.outcome[s.at := value.value] else s.outcome,
      handed := if s.records[s.at].Denied? then s.handed else s.handed + [s.at])
    ensures Inv(t)
  {
    hide SlotOk, Permitted;
    PushKeepsSlots(s, t, value);
    PushKeepsOutcomes(s, t, value);
    PermittedNext(s.records, s.at);
    assert s.handed + [] == s.handed && Permitted(s.records, s.at) + [] == Permitted(s.records, s.at);
  }

  lemma PermittedNext<V>(records: seq<Record<V>>, n: nat)
    requires n < |records|
    ensures Permitted(records, n + 1) == Permitted(records, n) + if records[n].Denied? then [] else [n]
  {
  }

  lemma PushKeepsOutcomes<V(!new)>(s: State<V>, t: State<V>, value: Option<V>)
    requires Inv(s) && s.at < |s.records|
    requires s.records[s.at].Denied? ==> value == Some(s.records[s.at].error)
    requires t.records == s.records && t.results == s.results && t.at == s.at + 1
    requires t.outcome == if value.Some? then s.outcome[s.at := value.value] else s.outcome
    ensures forall i: nat | i < |t.results| :: i in t.outcome && t.results[i] == t.outcome[i]
    ensures forall i: nat | i < t.at && t.records[i].Denied? :: i in t.outcome && t.outcome[i] == t.records[i].error
  {
    hide Permitted, PhaseOk, SlotOk;
  }

  lemma PushKeepsSlots<V(!new)>(s: State<V>, t: State<V>, value: Option<V>)
    requires Inv(s) && s.at < |s.records|
    requires s.records[s.at].Denied? ==> value.Some?
    requires t.records == s.records && t.results == s.results && t.pending == s.pending + [Slot(s.at, value)]
    requires t.outcome == if value.Some? then s.outcome[s.at := value.value] else s.outcome
    ensures forall k: nat | k < |t.pending| :: SlotOk(t, k)
  {
    hide Permitted, PhaseOk;
    forall k: nat | k < |t.pending| ensures SlotOk(t, k) {
      if k < |s.pending| { assert SlotOk(s, k); }
    }
  }

  lemma AdvanceKeeps<V(!new)>(s: State<V>)
    requires Inv(s)
    ensures Inv(Step(s, Advance))
  {
    var t := Step(s, Advance);
    if s.phase.Ready? && s.at < |s.records| {
      match s.records[s.at]
      case Denied(error) => PushKeeps(s, t, Some(error));
      case Plain => PushKeeps(s, t, None);
      case Keyed => SlotsStay(s, t);
    } else {
      SlotsStay(s, t);
    }
  }

  lemma SlotsStay<V(!new)>(s: State<V>, t: State<V>)
    requires Inv(s) && t.records == s.records && t.pending == s.pending && t.results == s.results && t.outcome == s.outcome
    ensures forall k: nat | k < |t.pending| :: SlotOk(t, k)
  {
    forall k: nat | k < |t.pending| ensures SlotOk(t, k) { assert SlotOk(s, k); }
  }

  lemma CompleteKeeps<V(!new)>(s: State<V>, slot: nat, v: V)
    requires Inv(s)
    ensures Inv(Step(s, Complete(slot, v)))
  {
    hide Permitted, NextRecordStep, DrainedStep;
    var t := Step(s, Complete(slot, v));
    if slot < |s.pending| { assert SlotOk(s, slot); }
    forall k: nat | k < |t.pending| ensures SlotOk(t, k) { assert SlotOk(s, k); }
  }

  lemma YieldKeeps<V(!new)>(s: State<V>)
    requires Inv(s)
    ensures Inv(Step(s, Yield))
  {
    hide Permitted, NextRecordStep, DrainedStep;
    var t := Step(s, Yield);
    if t != s {
      assert SlotOk(s, 0);
      forall k: nat | k < |t.pending| ensures SlotOk(t, k) { assert SlotOk(s, k + 1); }
    }
  }

  lemma ProducedKeeps<V(!new)>(s: State<V>, v: V)
    requires Inv(s)
    ensures Inv(Step(s, Produced(v)))
  {
  }

  lemma StepKeeps<V(!new)>(s: State<V>, e: Event<V>)
    requires Inv(s)
    ensures Inv(Step(s, e))
  {
    match e
    case Advance => AdvanceKeeps(s);
    case Complete(k, v) => CompleteKeeps(s, k, v);
    case Yield => YieldKeeps(s);
    case Produced(v) => ProducedKeeps(s, v);
  }

  lemma {:induction false} RunKeeps<V(!new)>(records: seq<Record<V>>, events: seq<Event<V>>)
    ensures Inv(Run(Started(records), events)) && Run(Started(records), events).records == records
    decreases |events|
  {
    if events != [] {
      RunKeeps(records, events[..|events| - 1]);
      StepKeeps(Run(Started(records), events[..|events| - 1]), events[|events| - 1]);
    }
  }

  // ---------- what the window promises ----------

  /** However deliveries complete, each result is its own record's, and none is missing or extra. */
  lemma ResultsMatchRecords<V(!new)>(records: seq<Record<V>>, events: seq<Event<V>>)
    ensures var s := Run(Started(records), events);
      s.phase.Finished? ==>
        && |s.results| == |records|
        && (forall i: nat | i < |records| :: i in s.outcome && s.results[i] == s.outcome[i])
        && (forall i: nat | i < |records| && records[i].Denied? :: s.results[i] == records[i].error)
  {
    RunKeeps(records, events);
  }

  /** The window never holds more than its capacity, and a keyed record is produced only when it is empty. */
  lemma WindowIsBounded<V(!new)>(records: seq<Record<V>>, events: seq<Event<V>>)
    ensures var s := Run(Started(records), events);
      && |s.pending| <= SEND_WINDOW_CAPACITY
      && (s.phase.Producing? ==> s.pending == [] && |s.results| == s.at < |s.records| && s.records[s.at].Keyed?)
  {
    RunKeeps(records, events);
  }

  /** The producer is given the permitted records in input order, each once. */
  lemma ProducerSeesInputOrder<V(!new)>(records: seq<Record<V>>, events: seq<Event<V>>)
    ensures var s := Run(Started(records), events);
      && s.at <= |records|
      && s.handed == Permitted(records, s.at) + if s.phase.Producing? then [s.at] else []
  {
    RunKeeps(records, events);
  }

  // ---------- progress ----------

  function Unresolved<V>(pending: seq<Slot<V>>): nat {
    if pending == [] then 0 else (if pending[0].value.None? then 1 else 0) + Unresolved(pending[1..])
  }

  function PhaseWeight(phase: Phase): nat {
    match phase
    case Draining(NextRecord) => 4
    case Ready => 3
    case Draining(ProduceKeyed) => 2
    case Draining(Finish) => 1
    case Producing => 1
    case Finished => 0
  }

  /** How much is left to do: every event that does anything does some of it. */
  function Remaining<V>(s: State<V>): nat
    requires s.at <= |s.records|
  {
    4 * (|s.records| - s.at) + |s.pending| + Unresolved(s.pending) + PhaseWeight(s.phase)
  }

  lemma {:induction false} UnresolvedAppended<V>(pending: seq<Slot<V>>, slot: Slot<V>)
    ensures Unresolved(pending + [slot]) == Unresolved(pending) + if slot.value.None? then 1 else 0
  {
    if pending == [] {
      assert pending + [slot] == [slot] && [slot][1..] == [];
    } else {
      assert (pending + [slot])[1..] == pending[1..] + [slot];
      UnresolvedAppended(pending[1..], slot);
    }
  }

  lemma {:induction false} UnresolvedCompleted<V>(pending: seq<Slot<V>>, k: nat, slot: Slot<V>)
    requires k < |pending| && pending[k].value.None? && slot.value.Some?
    ensures Unresolved(pending[k := slot]) == Unresolved(pending) - 1
  {
    if k == 0 {
      assert pending[k := slot][1..] == pending[1..];
    } else {
      assert pending[k := slot][1..] == pending[1..][k - 1 := slot];
      UnresolvedCompleted(pending[1..], k - 1, slot);
    }
  }

  lemma StepDoesSome<V(!new)>(s: State<V>, e: Event<V>)
    requires Inv(s) && Step(s, e) != s
    ensures Step(s, e).at <= |Step(s, e).records| && Remaining(Step(s, e)) < Remaining(s)
  {
    hide Inv;
    InvBounds(s);
    StepKeeps(s, e);
    InvBounds(Step(s, e));
    if e.Advance? && s.phase.Ready? && s.at < |s.records| {
      UnresolvedAppended(s.pending, Slot(s.at, None));
      if s.records[s.at].Denied? { UnresolvedAppended(s.pending, Slot(s.at, Some(s.records[s.at].error))); }
    } else if e.Complete? {
      UnresolvedCompleted(s.pending, e.slot, s.pending[e.slot].(value := Some(e.value)));
    }
  }

  lemma InvBounds<V(!new)>(s: State<V>)
    requires Inv(s)
    ensures s.at <= |s.records| && PhaseOk(s)
  {
  }

  /** An event that does something, in any state but the last; `v` is what a delivery would come to. */
  function Possible<V>(s: State<V>, v: V): Event<V> {
    match s.phase
    case Producing => Produced(v)
    case Draining(_) =>
      if s.pending == [] then Advance else if s.pending[0].value.Some? then Yield else Complete(0, v)
    case _ => Advance
  }

  lemma PossibleDoesSome<V(!new)>(s: State<V>, v: V)
    requires Inv(s) && !s.phase.Finished?
    ensures Step(s, Possible(s, v)) != s
  {
    InvBounds(s);
  }

  /** In every reachable state that is not the last, some event changes the state. */
  lemma NeverStuck<V(!new)>(records: seq<Record<V>>, events: seq<Event<V>>, v: V)
    ensures var s := Run(Started(records), events);
      !s.phase.Finished? ==> Step(s, Possible(s, v)) != s
  {
    RunKeeps(records, events);
    if !Run(Started(records), events).phase.Finished? { PossibleDoesSome(Run(Started(records), events), v); }
  }

  /** How many events of a run changed the state. */
  ghost function Changes<V>(s: State<V>, events: seq<Event<V>>): nat {
    if events == [] then 0
    else
      var init := events[..|events| - 1];
      Changes(s, init) + if Run(s, events) != Run(s, init) then 1 else 0
  }

  /** However the events interleave, at most four changes a record and three more. */
  lemma {:induction false} ChangesAreBounded<V(!new)>(records: seq<Record<V>>, events: seq<Event<V>>)
    ensures Run(Started(records), events).at <= |Run(Started(records), events).records|
    ensures Changes(Started(records), events) + Remaining(Run(Started(records), events)) <= 4 * |records| + 3
    decreases |events|
  {
    hide Inv, Step, Remaining;
    RunKeeps(records, events);
    InvBounds(Run(Started(records), events));
    if events == [] {
      RemainingAtStart(records);
    } else {
      var init := events[..|events| - 1];
      ChangesAreBounded(records, init);
      RunKeeps(records, init);
      if Run(Started(records), events) != Run(Started(records), init) {
        StepDoesSome(Run(Started(records), init), events[|events| - 1]);
      }
    }
  }

  lemma RemainingAtStart<V>(records: seq<Record<V>>)
    ensures Remaining(Started(records)) == 4 * |records| + 3
  {
  }

  lemma {:induction false} RunOn<V>(s: State<V>, e: Event<V>, events: seq<Event<V>>)
    ensures Run(s, [e] + events) == Run(Step(s, e), events)
    decreases |events|
  {
    var all := [e] + events;
    if events == [] {
      assert all[..|all| - 1] == [];
    } else {
      assert all[..|all| - 1] == [e] + events[..|events| - 1];
      RunOn(s, e, events[..|events| - 1]);
    }
  }

  /** From every state a run can reach, it can go on and finish, in no more events than there is left to do. */
  lemma {:induction false} CanFinish<V(!new)>(s: State<V>, v: V) returns (events: seq<Event<V>>)
    requires Inv(s)
    ensures s.at <= |s.records| && Run(s, events).phase.Finished? && |events| <= Remaining(s)
    decreases if s.at <= |s.records| then Remaining(s) else 0
  {
    hide Inv, Step, Remaining, Possible;
    InvBounds(s);
    events := [];
    if !s.phase.Finished? {
      var e := Possible(s, v);
      PossibleDoesSome(s, v);
      StepDoesSome(s, e);
      StepKeeps(s, e);
      var rest := CanFinish(Step(s, e), v);
      RunOn(s, e, rest);
      events := [e] + rest;
    }
  }
}
