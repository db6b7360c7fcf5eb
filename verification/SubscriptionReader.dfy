/**
 The TypeScript SDK's coalescing reader (subscription-reader.ts) over an async iterator, and
 every interleaving of reads, settlements, consumption and closing.

 The `k`-th call of the iterator's `next` makes promise `k`. A result is an object: consuming
 compares identities, and nothing stops an iterator from returning one object twice.
 */
module SubscriptionReader {
  import opened Wrappers

  datatype IteratorResult = IteratorResult(object_: nat, done: bool)

  /** What a read gives: the promise of a `next` call, a result already buffered, or the closed result. */
  datatype ReadResult = Promised(k: nat) | Buffered(message: IteratorResult) | Closed

  /** What the promise a read returned settles to. */
  datatype Settlement = Message(message: IteratorResult) | ClosedResult | Failure

  datatype State = State(
    pending: Option<nat>,
    buffered: Option<IteratorResult>,
    closed: bool,
    calls: nat,                        // next() calls so far
    unsettled: set<nat>,               // those not settled yet
    arrived: seq<IteratorResult>,      // every result the iterator resolved, in order
    consumed: seq<IteratorResult>,
    settled: map<nat, Settlement>,     // what each settled read promise came to
    lost: seq<IteratorResult>)         // those thrown away by closing, or resolved after it

  datatype Event =
    | Read
    | Resolve(k: nat, message: IteratorResult)
    | Reject(k: nat)
    | Consume(message: IteratorResult)
    | Close

  const INITIAL := State(None, None, false, 0, {}, [], [], map[], [])

  function ReadOf(s: State): (State, ReadResult) {
    if s.closed then (s, Closed)
    else if s.buffered.Some? then (s, Buffered(s.buffered.value))
    else if s.pending.Some? then (s, Promised(s.pending.value))
    else (s.(pending := Some(s.calls), calls := s.calls + 1, unsettled := s.unsettled + {s.calls}), Promised(s.calls))
  }

  function ResolveOf(s: State, k: nat, message: IteratorResult): State {
    var t := s.(unsettled := s.unsettled - {k}, arrived := s.arrived + [message]);
    if s.closed then t.(settled := s.settled[k := ClosedResult], lost := s.lost + [message])
    else if s.pending != Some(k) then t.(settled := s.settled[k := Message(message)])
    else t.(pending := None, buffered := Some(message), settled := s.settled[k := Message(message)])
  }

  function RejectOf(s: State, k: nat): State {
    s.(unsettled := s.unsettled - {k},
       pending := if s.pending == Some(k) then None else s.pending,
       settled := s.settled[k := if s.closed then ClosedResult else Failure])
  }

  function ConsumeOf(s: State, message: IteratorResult): State {
    if s.buffered != Some(message) then s
    else s.(buffered := None, consumed := s.consumed + [message])
  }

  function CloseOf(s: State): State {
    if s.closed then s
    else s.(closed := true, pending := None, buffered := None,
            lost := if s.buffered.Some? then [s.buffered.value] else [])
  }

  /** One step; only an unsettled `next` call can settle. */
  function Step(s: State, e: Event): State {
    match e
    case Read => ReadOf(s).0
    case Resolve(k, message) => if k in s.unsettled then ResolveOf(s, k, message) else s
    case Reject(k) => if k in s.unsettled then RejectOf(s, k) else s
    case Consume(message) => ConsumeOf(s, message)
    case Close => CloseOf(s)
  }

  function Run(s: State, events: seq<Event>): State {
    if events == [] then s else Step(Run(s, events[..|events| - 1]), events[|events| - 1])
  }

  // ---------- what every run keeps ----------

  ghost predicate Inv(s: State) {
    // at most one next() call is outstanding, and while open it is the pending one
    && (forall j, k | j in s.unsettled && k in s.unsettled :: j == k)
    && (forall k | k in s.unsettled :: k < s.calls && k !in s.settled)
    && (s.pending.Some? ==> s.pending.value in s.unsettled)
    && (!s.closed ==> (forall k | k in s.unsettled :: s.pending == Some(k)))
    // every call has settled or is outstanding
    && (forall k: nat | k < s.calls && k !in s.unsettled :: k in s.settled)
    && (forall k | k in s.settled :: k < s.calls)
    // never both pending and buffered; nothing at all once closed
    && (s.pending.None? || s.buffered.None?)
    && (s.closed ==> s.pending.None? && s.buffered.None?)
    // nothing is lost before closing, and closing costs at most one result
    && s.arrived == s.consumed + (if s.buffered.Some? then [s.buffered.value] else []) + s.lost
    && (!s.closed || s.unsettled != {} ==> s.lost == []) && |s.lost| <= 1
  }

  lemma StepKeeps(s: State, e: Event)
    requires Inv(s)
    ensures Inv(Step(s, e))
  {
    if e.Resolve? && e.k in s.unsettled {
      assert s.unsettled - {e.k} == {};
    }
  }

  /** Over every interleaving: one outstanding call, never pending and buffered, nothing lost or reordered. */
  lemma {:induction false} RunKeeps(events: seq<Event>)
    ensures Inv(Run(INITIAL, events))
    decreases |events|
  {
    if events != [] {
      RunKeeps(events[..|events| - 1]);
      StepKeeps(Run(INITIAL, events[..|events| - 1]), events[|events| - 1]);
    }
  }

  lemma {:induction false} InvLasts(s: State, events: seq<Event>)
    requires Inv(s)
    ensures Inv(Run(s, events))
    decreases |events|
  {
    if events != [] {
      InvLasts(s, events[..|events| - 1]);
      StepKeeps(Run(s, events[..|events| - 1]), events[|events| - 1]);
    }
  }

  /** What has been consumed is always a beginning of what the iterator produced. */
  lemma ConsumedIsAPrefix(events: seq<Event>)
    ensures var s := Run(INITIAL, events);
      s.consumed <= s.arrived && |s.arrived| <= |s.consumed| + 1
  {
    RunKeeps(events);
  }

  /** While open, the settling promise is the pending one, so its result is always buffered. */
  lemma ResolvedIsBuffered(events: seq<Event>, k: nat, message: IteratorResult)
    ensures var s := Run(INITIAL, events);
      !s.closed && k in s.unsettled ==>
        Step(s, Resolve(k, message)).buffered == Some(message) && s.buffered.None?
  {
    RunKeeps(events);
  }

  /** A buffered result is what every read gives until it is consumed or the reader is closed. */
  lemma {:induction false} BufferedStays(s: State, events: seq<Event>)
    requires Inv(s) && s.buffered.Some?
    requires forall i | 0 <= i < |events| :: events[i] != Close && events[i] != Consume(s.buffered.value)
    ensures var t := Run(s, events);
      !t.closed && ReadOf(t) == (t, Buffered(s.buffered.value)) && t.arrived == s.arrived && t.calls == s.calls
    decreases |events|
  {
    if events != [] {
      var before := events[..|events| - 1];
      BufferedStays(s, before);
      InvLasts(s, before);
      assert Inv(Run(s, before)) && events[|events| - 1] != Close;
    }
  }

  /** A read begun after closing gives the closed result and starts no call; so does one still waiting. */
  lemma {:induction false} ClosedStays(s: State, events: seq<Event>, k: nat)
    requires Inv(s) && s.closed
    ensures var t := Run(s, events);
      && ReadOf(t) == (t, Closed) && t.calls == s.calls && t.consumed == s.consumed && t.arrived == t.consumed + t.lost
      && (k in s.unsettled ==> k in t.unsettled || (k in t.settled && t.settled[k] == ClosedResult))
    decreases |events|
  {
    hide Inv, Step;
    InvLasts(s, events);
    if events != [] {
      var before := events[..|events| - 1];
      ClosedStays(s, before, k);
      InvLasts(s, before);
      StepStaysClosed(Run(s, before), events[|events| - 1], k);
    }
    ClosedResults(Run(s, events));
  }

  lemma ClosedResults(s: State)
    requires Inv(s) && s.closed
    ensures s.arrived == s.consumed + s.lost
  {
  }

  lemma StepStaysClosed(s: State, e: Event, k: nat)
    requires Inv(s) && s.closed
    ensures var t := Step(s, e);
      && t.closed && t.calls == s.calls && t.consumed == s.consumed
      && (k in s.unsettled ==> k in t.unsettled || (k in t.settled && t.settled[k] == ClosedResult))
      && (k in s.settled ==> k in t.settled && t.settled[k] == s.settled[k])
  {
  }

  // ---------- what each read comes to, from the events ----------

  predicate Answers(e: Event, k: nat) {
    (e.Resolve? || e.Reject?) && e.k == k
  }

  /** Event `i` answers call `k`, after `next` was called for it. */
  ghost predicate AnsweredAt(events: seq<Event>, i: nat, k: nat) {
    i < |events| && Answers(events[i], k) && k < Run(INITIAL, events[..i]).calls
  }

  /** Event `i` settles call `k`: it is the first to answer it. */
  ghost predicate SettledAt(events: seq<Event>, i: nat, k: nat) {
    AnsweredAt(events, i, k) && forall j | 0 <= j < i :: !AnsweredAt(events, j, k)
  }

  /** The reader is closed from the first `Close` on. */
  lemma {:induction false} ClosedExactly(events: seq<Event>)
    ensures Run(INITIAL, events).closed <==> Close in events
    decreases |events|
  {
    if events != [] {
      var before, e := events[..|events| - 1], events[|events| - 1];
      ClosedExactly(before);
      assert events == before + [e];
    }
  }

  lemma AnsweredEarlier(events: seq<Event>, n: nat, i: nat, k: nat)
    requires i < n <= |events|
    ensures AnsweredAt(events, i, k) <==> AnsweredAt(events[..n], i, k)
  {
    assert events[..n][..i] == events[..i];
  }

  /** One event settles the call it answers, and leaves what has settled alone. */
  lemma StepSettles(s: State, e: Event, k: nat)
    requires Inv(s)
    ensures k in Step(s, e).settled <==> k in s.settled || (Answers(e, k) && k < s.calls)
    ensures k in s.settled ==> Step(s, e).settled[k] == s.settled[k]
  {
  }

  lemma {:induction false} SettledIsAnswered(events: seq<Event>, k: nat)
    ensures k in Run(INITIAL, events).settled <==> exists i: nat :: AnsweredAt(events, i, k)
    decreases |events|
  {
    hide Step, AnsweredAt, Inv;
    if events != [] {
      var n := |events| - 1;
      SettledIsAnswered(events[..n], k);
      RunKeeps(events[..n]);
      StepSettles(Run(INITIAL, events[..n]), events[n], k);
      forall i: nat | i < n ensures AnsweredAt(events, i, k) <==> AnsweredAt(events[..n], i, k) {
        AnsweredEarlier(events, n, i, k);
      }
      AnsweredLast(events, k);
    } else {
      NothingAnswered(k);
    }
  }

  lemma NothingAnswered(k: nat)
    ensures forall i: nat :: !AnsweredAt([], i, k)
  {
  }

  lemma AnsweredLast(events: seq<Event>, k: nat)
    requires events != []
    ensures var n := |events| - 1;
      && (AnsweredAt(events, n, k) <==> Answers(events[n], k) && k < Run(INITIAL, events[..n]).calls)
      && (forall i: nat | AnsweredAt(events, i, k) :: i <= n)
      && (forall i: nat | AnsweredAt(events[..n], i, k) :: i < n)
  {
  }

  lemma {:induction false} FirstAnswer(events: seq<Event>, k: nat) returns (i: nat)
    requires k in Run(INITIAL, events).settled
    ensures SettledAt(events, i, k)
    decreases |events|
  {
    hide Step, AnsweredAt, Inv;
    var n := |events| - 1;
    SettledIsAnswered(events[..n], k);
    RunKeeps(events[..n]);
    StepSettles(Run(INITIAL, events[..n]), events[n], k);
    forall j: nat | j < n ensures AnsweredAt(events, j, k) <==> AnsweredAt(events[..n], j, k) {
      AnsweredEarlier(events, n, j, k);
    }
    AnsweredLast(events, k);
    if k in Run(INITIAL, events[..n]).settled {
      i := FirstAnswer(events[..n], k);
    } else {
      i := n;
    }
  }

  /** What call `k` comes to when event `i` settles it. */
  ghost function Comes(events: seq<Event>, i: nat): Settlement
    requires i < |events| && (events[i].Resolve? || events[i].Reject?)
  {
    if Close in events[..i] then ClosedResult
    else if events[i].Resolve? then Message(events[i].message)
    else Failure
  }

  lemma SettlesTo(events: seq<Event>, k: nat)
    requires events != [] && SettledAt(events, |events| - 1, k)
    ensures var s := Run(INITIAL, events).settled; k in s && s[k] == Comes(events, |events| - 1)
  {
    var n := |events| - 1;
    var before := events[..n];
    SettledIsAnswered(before, k);
    forall i: nat | AnsweredAt(before, i, k) ensures false { AnsweredEarlier(events, n, i, k); }
    RunKeeps(before);
    ClosedExactly(before);
  }

  lemma {:induction false} SettlementStays(events: seq<Event>, i: nat, k: nat)
    requires SettledAt(events, i, k)
    ensures var s := Run(INITIAL, events).settled; k in s && s[k] == Comes(events, i)
    decreases |events|
  {
    hide Step, Inv;
    var n := |events| - 1;
    if i == n {
      SettlesTo(events, k);
    } else {
      var before := events[..n];
      assert SettledAt(before, i, k) by {
        AnsweredEarlier(events, n, i, k);
        forall j: nat | j < i ensures !AnsweredAt(before, j, k) { AnsweredEarlier(events, n, j, k); }
      }
      SettlementStays(before, i, k);
      assert before[..i] == events[..i];
      RunKeeps(before);
      StepSettles(Run(INITIAL, before), events[n], k);
    }
  }

  /**
   Over every interleaving, what the promise of call `k` came to: the result it resolved with, or
   its own error, if it settled while the reader was open, and the closed result if after closing.
   */
  lemma SettledExactly(events: seq<Event>, k: nat, message: IteratorResult)
    ensures var s := Run(INITIAL, events).settled;
      && (k in s && s[k] == Message(message) <==>
            exists i: nat :: SettledAt(events, i, k) && Close !in events[..i] && events[i] == Resolve(k, message))
      && (k in s && s[k] == Failure <==>
            exists i: nat :: SettledAt(events, i, k) && Close !in events[..i] && events[i] == Reject(k))
      && (k in s && s[k] == ClosedResult <==> exists i: nat :: SettledAt(events, i, k) && Close in events[..i])
  {
    hide Run;
    forall i: nat | SettledAt(events, i, k)
      ensures k in Run(INITIAL, events).settled && Run(INITIAL, events).settled[k] == Comes(events, i)
    {
      SettlementStays(events, i, k);
    }
    if k in Run(INITIAL, events).settled {
      var i := FirstAnswer(events, k);
      SettlementStays(events, i, k);
    }
  }

  /** The results the first `n` calls' promises gave, in the order of the calls. */
  ghost function Given(settled: map<nat, Settlement>, n: nat): seq<IteratorResult> {
    if n == 0 then []
    else Given(settled, n - 1) + if n - 1 in settled && settled[n - 1].Message? then [settled[n - 1].message] else []
  }

  lemma {:induction false} GivenStays(settled: map<nat, Settlement>, k: nat, v: Settlement, n: nat)
    requires n <= k
    ensures Given(settled[k := v], n) == Given(settled, n)
  {
    if n > 0 { GivenStays(settled, k, v, n - 1); }
  }

  lemma StepGives(s: State, e: Event)
    requires Inv(s) && Given(s.settled, s.calls) == s.arrived && !Step(s, e).closed && OnlyLastIsOpen(s)
    ensures var t := Step(s, e); Given(t.settled, t.calls) == t.arrived && OnlyLastIsOpen(t)
  {
    hide Inv, Given;
    if (e.Resolve? || e.Reject?) && e.k in s.unsettled {
      NotSettledYet(s, e.k);
      SettlingGives(s.settled, e.k, if e.Resolve? then Message(e.message) else Failure);
    } else if e.Read? {
      NotMadeYet(s);
      NothingNewGiven(s.settled, s.calls);
    }
  }

  lemma SettlingGives(settled: map<nat, Settlement>, k: nat, v: Settlement)
    requires k !in settled
    ensures Given(settled[k := v], k + 1) == Given(settled, k + 1) + if v.Message? then [v.message] else []
  {
    GivenStays(settled, k, v, k);
  }

  lemma NothingNewGiven(settled: map<nat, Settlement>, n: nat)
    requires n !in settled
    ensures Given(settled, n + 1) == Given(settled, n)
  {
  }

  lemma NotSettledYet(s: State, k: nat)
    requires Inv(s) && k in s.unsettled
    ensures k !in s.settled && k < s.calls
  {
  }

  lemma NotMadeYet(s: State)
    requires Inv(s)
    ensures s.calls !in s.settled && (s.pending.None? && !s.closed ==> s.unsettled == {})
  {
  }

  /** The outstanding call is the last one made. */
  ghost predicate OnlyLastIsOpen(s: State) {
    forall k | k in s.unsettled :: k == s.calls - 1
  }

  /** While the reader is open, the results the reads gave, in call order, are all that arrived. */
  lemma {:induction false} ReadsGiveWhatArrived(events: seq<Event>)
    requires Close !in events
    ensures var s := Run(INITIAL, events); Given(s.settled, s.calls) == s.arrived && OnlyLastIsOpen(s)
    decreases |events|
  {
    hide Inv, Step, Given;
    if events != [] {
      var before, e := events[..|events| - 1], events[|events| - 1];
      ReadsGiveWhatArrived(before);
      RunKeeps(before);
      ClosedExactly(events);
      StepGives(Run(INITIAL, before), e);
    } else {
      NothingGiven();
    }
  }

  lemma NothingGiven()
    ensures Given(map[], 0) == []
  {
  }

  /**
   What a read starts and gives, from what arrived and was consumed: it calls `next` exactly when
   the reader is open, every result that arrived was consumed and every call has settled.
   */
  lemma ReadsExactly(events: seq<Event>)
    ensures var s := Run(INITIAL, events); var (t, r) := ReadOf(s);
      && (t.calls == s.calls + 1 <==>
            Close !in events && s.consumed == s.arrived && forall k: nat | k < s.calls :: k in s.settled)
      && (t.calls == s.calls || t.calls == s.calls + 1)
      && (r == Closed <==> Close in events)
      && (forall m :: r == Buffered(m) <==> Close !in events && s.arrived == s.consumed + [m])
      && (forall k: nat :: r == Promised(k) <==> Close !in events && k < t.calls && k !in t.settled)
  {
    RunKeeps(events);
    ClosedExactly(events);
    var s := Run(INITIAL, events);
    var (t, r) := ReadOf(s);
    StepKeeps(s, Read);
    if s.buffered.Some? {
      assert s.arrived == s.consumed + [s.buffered.value] + [];
      assert s.arrived[|s.consumed|] == s.buffered.value;
      assert s.arrived != s.consumed;
      forall m ensures s.arrived == s.consumed + [m] <==> m == s.buffered.value {
        assert (s.consumed + [m])[|s.consumed|] == m;
      }
    } else if !s.closed {
      assert s.arrived == s.consumed;
    }
  }

  /** Consuming takes a result exactly when the reader is open and it is the one not consumed yet. */
  lemma ConsumesExactly(events: seq<Event>, message: IteratorResult)
    ensures var s := Run(INITIAL, events); var t := Step(s, Consume(message));
      t.consumed == if Close !in events && s.arrived == s.consumed + [message] then s.arrived else s.consumed
  {
    RunKeeps(events);
    ClosedExactly(events);
    var s := Run(INITIAL, events);
    assert s.buffered.Some? ==> (s.consumed + [s.buffered.value])[|s.consumed|] == s.buffered.value;
    assert (s.consumed + [message])[|s.consumed|] == message;
  }

  // ---------- the reader ----------

  class Reader {
    var pendingRead: Option<nat>
    var bufferedRead: Option<IteratorResult>
    var isClosed: bool
    ghost var state: State

    constructor ()
      ensures Valid() && state == INITIAL
    {
      pendingRead, bufferedRead, isClosed := None, None, false;
      state := INITIAL;
    }

    ghost predicate Valid()
      reads this
    {
      && Inv(state)
      && pendingRead == state.pending && bufferedRead == state.buffered && isClosed == state.closed
    }

    /** `next` is the number of the promise the iterator would make. */
    method ReadNext(next: nat) returns (r: ReadResult)
      requires Valid() && next == state.calls
      modifies this
      ensures Valid() && (state, r) == ReadOf(old(state))
    {
      StepKeeps(state, Read);
      if isClosed {
        return Closed;
      }
      if bufferedRead.Some? {
        return Buffered(bufferedRead.value);
      }
      if pendingRead.Some? {
        return Promised(pendingRead.value);
      }
      pendingRead := Some(next);
      state := ReadOf(state).0;
      r := Promised(next);
    }

    method ConsumeMessage(message: IteratorResult)
      requires Valid()
      modifies this
      ensures Valid() && state == Step(old(state), Consume(message))
    {
      StepKeeps(state, Consume(message));
      if bufferedRead != Some(message) {
        return;
      }
      bufferedRead := None;
      state := ConsumeOf(state, message);
    }

    method CloseReader()
      requires Valid()
      modifies this
      ensures Valid() && state == Step(old(state), Close)
    {
      StepKeeps(state, Close);
      if isClosed {
        return;
      }
      isClosed, pendingRead, bufferedRead := true, None, None;
      state := CloseOf(state);
    }

    /** `bufferMessage`, when the iterator resolves promise `k`. */
    method BufferMessage(k: nat, message: IteratorResult) returns (r: Settlement)
      requires Valid() && k in state.unsettled
      modifies this
      ensures Valid() && state == Step(old(state), Resolve(k, message)) && state.settled[k] == r
    {
      StepKeeps(state, Resolve(k, message));
      state := ResolveOf(state, k, message);
      if isClosed {
        return ClosedResult;
      }
      if pendingRead != Some(k) {
        return Message(message);
      }
      pendingRead := None;
      bufferedRead := Some(message);
      r := Message(message);
    }

    /** The rejection handler of `read`. */
    method Rejected(k: nat) returns (r: Settlement)
      requires Valid() && k in state.unsettled
      modifies this
      ensures Valid() && state == Step(old(state), Reject(k)) && state.settled[k] == r
    {
      StepKeeps(state, Reject(k));
      state := RejectOf(state, k);
      if pendingRead == Some(k) {
        pendingRead := None;
      }
      r := if isClosed then ClosedResult else Failure;
    }
  }
}
