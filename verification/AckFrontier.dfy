/** The per-partition acknowledgement tracker (`PartitionAckState` in consume.rs). */
module AckFrontier {
  import opened Wrappers

  // A `Tracker` is the value of one `PartitionAckState`; the class at the end of the module updates
  // such a value in place, with the source's loops. `History` is an independent, append-only account
  // of the same run: which offsets were admitted and which were acknowledged. The main theorem says
  // that the tracker never knows more or less than the history does.

  const MAX_OUTSTANDING_PER_PARTITION: nat := 100_000
  const I64_MAX: int := 0x7FFF_FFFF_FFFF_FFFF
  const I64_MIN: int := -0x8000_0000_0000_0000

  datatype Tracker = Tracker(
    frontier: Option<int>,
    delivered: set<int>,
    pending: set<int>,
    committed: Option<int>)

  const Fresh: Tracker := Tracker(None, {}, {}, None)

  datatype Outcome = Outcome(ok: bool, tracker: Tracker)

  // ---------- what one operation does to a tracker ----------

  /** What stays outstanding: everything from the least unacknowledged delivery on. */
  ghost function Kept(delivered: set<int>, pending: set<int>): (kept: set<int>)
    ensures kept <= delivered
    ensures delivered - kept <= pending
    ensures forall x, y | x in delivered - kept && y in kept :: x < y
    ensures kept != {} ==> First(kept) !in pending
  {
    var unacked := delivered - pending;
    if unacked == {} then {}
    else
      var kept := set x | x in delivered && First(unacked) <= x;
      assert First(unacked) in kept;
      assert First(kept) == First(unacked);
      assert forall x | x in delivered && x !in pending :: x in unacked;
      kept
  }

  /** `Kept` is the only cut of the deliveries with these properties. */
  lemma KeptIsUnique(delivered: set<int>, pending: set<int>, kept: set<int>)
    requires kept <= delivered && delivered - kept <= pending
    requires forall x, y | x in delivered - kept && y in kept :: x < y
    requires kept != {} ==> First(kept) !in pending
    ensures kept == Kept(delivered, pending)
  {
    var unacked := delivered - pending;
    if kept == {} {
      assert unacked == {};
    } else {
      assert First(kept) in unacked;
      assert First(unacked) in kept;
      forall x | x in delivered ensures x in kept <==> First(unacked) <= x {
        if x !in kept { assert x in delivered - kept; }
      }
    }
  }

  /** The tracker once every unblocked acknowledgement has been consumed. */
  ghost function Drained(t: Tracker): Tracker {
    var kept := Kept(t.delivered, t.pending);
    var released := t.delivered - kept;
    t.(delivered := kept,
       pending := t.pending * kept,
       frontier := if released == {} then t.frontier else Some(Max(released)))
  }

  ghost function RecordDelivery(t: Tracker, offset: int): Outcome {
    if t.frontier.Some? && offset <= t.frontier.value then
      Outcome(true, t)
    else if offset !in t.delivered && |t.delivered| >= MAX_OUTSTANDING_PER_PARTITION then
      Outcome(false, t)
    else
      var seeded := if t.frontier.Some? then t
                    else t.(frontier := Some(offset - 1), committed := Some(offset - 1));
      Outcome(true, seeded.(delivered := t.delivered + {offset}))
  }

  ghost function RecordAck(t: Tracker, offset: int): Outcome {
    var first := if t.frontier.Some? then Outcome(true, t) else RecordDelivery(t, offset);
    if !first.ok then
      first
    else
      var s := first.tracker;
      if s.frontier.Some? && offset <= s.frontier.value then Outcome(true, s)
      else if offset !in s.delivered then Outcome(false, s)
      else Outcome(true, Drained(s.(pending := s.pending + {offset})))
  }

  /** The offset to commit, if the frontier moved since the last commit and `frontier + 1` is an `i64`. */
  function CommitValue(t: Tracker): Option<int> {
    if t.frontier.Some? && t.committed != t.frontier && t.frontier.value < I64_MAX
    then Some(t.frontier.value + 1)
    else None
  }

  /** The broker accepted `next`. */
  function Committed(t: Tracker, next: int): Tracker {
    t.(committed := if next == I64_MIN then None else Some(next - 1))
  }

  // ---------- invariant ----------

  ghost predicate Valid(t: Tracker) {
    && t.pending <= t.delivered
    && |t.delivered| <= MAX_OUTSTANDING_PER_PARTITION
    && (t.frontier.None? ==> t.delivered == {} && t.committed.None?)
    && (t.frontier.Some? ==>
          && t.committed.Some?
          && I64_MIN <= t.committed.value <= t.frontier.value <= I64_MAX
          && forall d | d in t.delivered :: t.frontier.value < d <= I64_MAX)
    && (t.delivered != {} ==> First(t.delivered) !in t.pending)
  }

  /** How one tracker state may follow another: the frontier and the commit never move back. */
  ghost predicate Advances(t: Tracker, t': Tracker) {
    && (t.frontier.Some? ==> t'.frontier.Some? && t.frontier.value <= t'.frontier.value)
    && (t.committed.Some? ==> t'.committed.Some? && t.committed.value <= t'.committed.value)
  }

  lemma DrainedIsValid(t: Tracker)
    requires t.pending <= t.delivered
    requires |t.delivered| <= MAX_OUTSTANDING_PER_PARTITION
    requires t.frontier.Some? && t.committed.Some?
    requires I64_MIN <= t.committed.value <= t.frontier.value <= I64_MAX
    requires forall d | d in t.delivered :: t.frontier.value < d <= I64_MAX
    ensures Valid(Drained(t)) && Advances(t, Drained(t))
    ensures Drained(t).frontier.Some?
  {
    SubsetSize(Drained(t).delivered, t.delivered);
    if Drained(t).delivered != {} {
      assert First(Drained(t).delivered) !in t.pending;
    }
  }

  lemma DeliveryKeepsValid(t: Tracker, offset: int)
    requires Valid(t) && I64_MIN < offset <= I64_MAX
    ensures var r := RecordDelivery(t, offset);
      && Valid(r.tracker) && Advances(t, r.tracker)
      && (r.ok ==> r.tracker.frontier.Some?
                   && (offset in r.tracker.delivered || offset <= r.tracker.frontier.value))
      && (!r.ok ==> r.tracker == t)
  {
    var t' := RecordDelivery(t, offset).tracker;
    if t' != t {
      assert offset !in t.pending || offset in t.delivered;
      if t.delivered == {} {
        assert t'.delivered == {offset};
      } else {
        assert First(t.delivered) in t'.delivered;
        assert First(t'.delivered) == offset || First(t'.delivered) == First(t.delivered);
      }
    }
  }

  lemma AckKeepsValid(t: Tracker, offset: int)
    requires Valid(t) && I64_MIN < offset <= I64_MAX
    ensures var r := RecordAck(t, offset);
      && Valid(r.tracker) && Advances(t, r.tracker)
      && (!r.ok ==> r.tracker == t)
      && (r.ok ==> r.tracker.frontier.Some?)
      && (r.ok <==> t.frontier.None? || offset <= t.frontier.value || offset in t.delivered)
  {
    DeliveryKeepsValid(t, offset);
    var s := if t.frontier.Some? then t else RecordDelivery(t, offset).tracker;
    if s.frontier.Some? && offset > s.frontier.value && offset in s.delivered {
      DrainedIsValid(s.(pending := s.pending + {offset}));
    }
  }

  // ---------- the reference account of a run ----------

  datatype History = History(baseline: Option<int>, admitted: set<int>, acked: set<int>)

  const NoHistory: History := History(None, {}, {})

  /** Admitted offsets below which nothing admitted is missing an acknowledgement. */
  ghost function Settled(h: History): set<int> {
    set a | a in h.admitted && forall b | b in h.admitted && b <= a :: b in h.acked
  }

  ghost function SettledFrontier(h: History): Option<int> {
    if h.baseline.None? then None
    else if Settled(h) == {} then h.baseline
    else Some(Max(Settled(h)))
  }

  ghost predicate WellFormed(h: History) {
    && h.acked <= h.admitted
    && (h.baseline.None? ==> h.admitted == {})
    && (h.baseline.Some? ==> forall a | a in h.admitted :: h.baseline.value < a)
  }

  datatype HistoryOutcome = HistoryOutcome(ok: bool, history: History)

  ghost function Admit(h: History, offset: int): HistoryOutcome {
    var f := SettledFrontier(h);
    if f.Some? && offset <= f.value then HistoryOutcome(true, h)
    else if offset !in h.admitted && |h.admitted - Settled(h)| >= MAX_OUTSTANDING_PER_PARTITION then
      HistoryOutcome(false, h)
    else
      HistoryOutcome(true, History(if f.None? then Some(offset - 1) else h.baseline,
                                   h.admitted + {offset}, h.acked))
  }

  ghost function Acknowledge(h: History, offset: int): HistoryOutcome {
    var first := if h.baseline.Some? then HistoryOutcome(true, h) else Admit(h, offset);
    if !first.ok then first
    else
      var f := SettledFrontier(first.history);
      if f.Some? && offset <= f.value then first
      else if offset !in first.history.admitted then HistoryOutcome(false, first.history)
      else HistoryOutcome(true, first.history.(acked := first.history.acked + {offset}))
  }

  /** The tracker is exactly what the history determines. */
  ghost predicate Refines(t: Tracker, h: History) {
    && Valid(t)
    && WellFormed(h)
    && t.frontier == SettledFrontier(h)
    && t.delivered == h.admitted - Settled(h)
    && t.pending == t.delivered * h.acked
  }

  lemma SettledIsBelowFrontier(h: History, a: int)
    requires WellFormed(h) && h.baseline.Some? && a in h.admitted
    ensures a in Settled(h) <==> a <= SettledFrontier(h).value
  {
    var s := Settled(h);
    if s != {} && a <= Max(s) {
      assert Max(s) in s;
      forall b | b in h.admitted && b <= a ensures b in h.acked {}
    }
  }

  lemma AdmitRefines(t: Tracker, h: History, offset: int)
    requires Refines(t, h) && I64_MIN < offset <= I64_MAX
    ensures RecordDelivery(t, offset).ok == Admit(h, offset).ok
    ensures Refines(RecordDelivery(t, offset).tracker, Admit(h, offset).history)
  {
    hide Settled, Valid, Max;
    DeliveryKeepsValid(t, offset);
    if h.baseline.None? {
      FirstAdmission(h, offset);
      var t' := RecordDelivery(t, offset).tracker;
      assert t'.delivered == {offset} && t'.pending == {};
    } else if offset > SettledFrontier(h).value {
      AdmitAboveRefines(t, h, offset);
    }
  }

  lemma AdmitAboveRefines(t: Tracker, h: History, offset: int)
    requires Refines(t, h) && h.baseline.Some? && offset > SettledFrontier(h).value
    ensures var h' := h.(admitted := h.admitted + {offset});
      && (offset in h.admitted <==> offset in t.delivered)
      && WellFormed(h')
      && SettledFrontier(h') == SettledFrontier(h)
      && t.delivered + {offset} == h'.admitted - Settled(h')
      && t.pending == (t.delivered + {offset}) * h'.acked
  {
    hide Settled, Valid, Max;
    AdmittingAboveKeepsSettled(h, offset);
    AboveFrontierIsUnsettled(h, offset);
    OneMoreOpen(h.admitted, Settled(h), h.acked, offset);
  }

  lemma OneMoreOpen(admitted: set<int>, settled: set<int>, acked: set<int>, offset: int)
    requires offset !in settled && (offset in acked ==> offset in admitted)
    ensures var open := admitted - settled;
      && (admitted + {offset}) - settled == open + {offset}
      && open * acked == (open + {offset}) * acked
      && (offset in admitted <==> offset in open)
  {
  }

  lemma AboveFrontierIsUnsettled(h: History, offset: int)
    requires WellFormed(h) && h.baseline.Some? && offset > SettledFrontier(h).value
    ensures h.baseline.value < offset && offset !in Settled(h)
    ensures offset in h.acked ==> offset in h.admitted
  {
    if Settled(h) != {} { assert Max(Settled(h)) in h.admitted; }
  }

  lemma FirstAdmission(h: History, offset: int)
    requires WellFormed(h) && h.baseline.None?
    ensures Settled(h) == {}
    ensures Settled(History(Some(offset - 1), {offset}, {})) == {}
    ensures Admit(h, offset) == HistoryOutcome(true, History(Some(offset - 1), {offset}, {}))
  {
    var h' := History(Some(offset - 1), {offset}, {});
    assert Settled(h) == {};
    assert h.admitted + {offset} == h'.admitted;
    assert h.acked == {};
    assert offset in h'.admitted && offset !in h'.acked;
  }

  lemma AdmittingAboveKeepsSettled(h: History, offset: int)
    requires WellFormed(h) && h.baseline.Some? && offset > SettledFrontier(h).value
    ensures Settled(h.(admitted := h.admitted + {offset})) == Settled(h)
    ensures offset !in Settled(h)
  {
    var h' := h.(admitted := h.admitted + {offset});
    if offset in h.admitted {
      assert h' == h;
      SettledIsBelowFrontier(h, offset);
    } else {
      assert offset !in h.acked;
      forall a | a in h'.admitted ensures a in Settled(h') <==> a in Settled(h) {
        if a in Settled(h) {
          SettledIsBelowFrontier(h, a);
        }
      }
    }
  }

  /** Acknowledging where there is a frontier. */
  lemma TrackedAckRefines(s: Tracker, g: History, offset: int)
    requires Refines(s, g) && s.frontier.Some? && I64_MIN < offset <= I64_MAX
    ensures RecordAck(s, offset).ok == Acknowledge(g, offset).ok
    ensures Refines(RecordAck(s, offset).tracker, Acknowledge(g, offset).history)
  {
    AckKeepsValid(s, offset);
    assert g.baseline.Some?;
    if offset > s.frontier.value {
      if offset in g.admitted { SettledIsBelowFrontier(g, offset); }
      if offset in s.delivered { DrainRefines(s, g, offset); }
    }
  }

  /** The first acknowledgement of a partition admits its own offset, then settles it. */
  lemma FirstAckAdmits(t: Tracker, h: History, offset: int)
    requires Refines(t, h) && t.frontier.None?
    ensures var s := RecordDelivery(t, offset).tracker; var g := Admit(h, offset).history;
      && s.frontier.Some? && RecordAck(t, offset) == RecordAck(s, offset)
      && Acknowledge(h, offset) == Acknowledge(g, offset)
  {
    FirstAdmission(h, offset);
  }

  lemma AcknowledgeRefines(t: Tracker, h: History, offset: int)
    requires Refines(t, h) && I64_MIN < offset <= I64_MAX
    ensures RecordAck(t, offset).ok == Acknowledge(h, offset).ok
    ensures Refines(RecordAck(t, offset).tracker, Acknowledge(h, offset).history)
  {
    if t.frontier.Some? {
      TrackedAckRefines(t, h, offset);
    } else {
      AdmitRefines(t, h, offset);
      FirstAckAdmits(t, h, offset);
      TrackedAckRefines(RecordDelivery(t, offset).tracker, Admit(h, offset).history, offset);
    }
  }

  lemma SettledIsDownwardClosed(h: History, x: int, y: int)
    requires x in Settled(h) && y in h.admitted && y <= x
    ensures y in Settled(h)
  {
  }

  lemma LeastOpenIsUnacked(h: History)
    requires h.admitted - Settled(h) != {}
    ensures First(h.admitted - Settled(h)) !in h.acked
  {
    var open := h.admitted - Settled(h);
    var least := First(open);
    var b :| b in h.admitted && b <= least && b !in h.acked;
    assert b !in Settled(h);
    assert b in open;
  }

  /** Acknowledging `offset` settles exactly what draining releases. */
  lemma OpenIsKept(s: Tracker, g: History, offset: int)
    requires Refines(s, g) && offset in s.delivered
    ensures var g' := g.(acked := g.acked + {offset});
      && Settled(g) <= Settled(g')
      && Kept(s.delivered, s.pending + {offset}) == g.admitted - Settled(g')
  {
    var g' := g.(acked := g.acked + {offset});
    var open := g.admitted - Settled(g');
    var pending := s.pending + {offset};
    assert forall a | a in Settled(g) :: a in Settled(g');
    assert open <= s.delivered;
    forall x, y | x in s.delivered - open && y in open ensures x < y {
      if y <= x { SettledIsDownwardClosed(g', x, y); }
    }
    if open != {} { LeastOpenIsUnacked(g'); }
    forall x | x in s.delivered - open ensures x in pending {
      assert x in g'.acked;
    }
    KeptIsUnique(s.delivered, pending, open);
  }

  lemma DrainRefines(s: Tracker, g: History, offset: int)
    requires Refines(s, g) && s.frontier.Some?
    requires offset in s.delivered
    ensures var s' := Drained(s.(pending := s.pending + {offset}));
            var g' := g.(acked := g.acked + {offset});
      && s'.frontier == SettledFrontier(g')
      && s'.delivered == g'.admitted - Settled(g')
      && s'.pending == s'.delivered * g'.acked
  {
    OpenIsKept(s, g, offset);
    ReleasedMovesFrontier(s, g, offset);
  }

  lemma ReleasedMovesFrontier(s: Tracker, g: History, offset: int)
    requires Refines(s, g) && s.frontier.Some? && offset in s.delivered
    ensures var released := s.delivered - Kept(s.delivered, s.pending + {offset});
      SettledFrontier(g.(acked := g.acked + {offset}))
      == if released == {} then s.frontier else Some(Max(released))
  {
    hide Settled, Valid, Kept, Max;
    OpenIsKept(s, g, offset);
    var g' := g.(acked := g.acked + {offset});
    var released := s.delivered - Kept(s.delivered, s.pending + {offset});
    SettledAndReleased(s, g, offset);
    if released != {} {
      forall x, y | x in Settled(g) && y in released ensures x < y { ReleasedIsAbove(s, g, x, y); }
      MaxOfUpper(Settled(g), released);
    }
  }

  lemma SettledAndReleased(s: Tracker, g: History, offset: int)
    requires Refines(s, g) && s.frontier.Some? && offset in s.delivered
    ensures Settled(g.(acked := g.acked + {offset})) == Settled(g) + (s.delivered - Kept(s.delivered, s.pending + {offset}))
  {
    hide Settled, Valid, Kept, SettledFrontier;
    OpenIsKept(s, g, offset);
    SettledIsAdmitted(g);
    SettledIsAdmitted(g.(acked := g.acked + {offset}));
  }

  lemma SettledIsAdmitted(h: History)
    ensures Settled(h) <= h.admitted
  {
  }

  lemma ReleasedIsAbove(s: Tracker, g: History, x: int, y: int)
    requires Refines(s, g) && s.frontier.Some? && x in Settled(g) && y in s.delivered
    ensures x < y
  {
    SettledIsBelowFrontier(g, x);
    SettledIsBelowFrontier(g, y);
  }

  lemma MaxOfUpper(lower: set<int>, upper: set<int>)
    requires upper != {}
    requires forall x, y | x in lower && y in upper :: x < y
    ensures Max(lower + upper) == Max(upper)
  {
  }

  // ---------- whole runs ----------

  datatype Op = Deliver(offset: int) | Ack(offset: int)

  ghost predicate InRange(ops: seq<Op>) {
    forall i | 0 <= i < |ops| :: I64_MIN < ops[i].offset <= I64_MAX
  }

  /** The tracker after `ops`; an operation that fails leaves it unchanged. */
  ghost function TrackerAfter(ops: seq<Op>): Tracker {
    if ops == [] then Fresh
    else
      var t := TrackerAfter(ops[..|ops| - 1]);
      match ops[|ops| - 1]
      case Deliver(o) => RecordDelivery(t, o).tracker
      case Ack(o) => RecordAck(t, o).tracker
  }

  ghost function Account(ops: seq<Op>): History {
    if ops == [] then NoHistory
    else
      var h := Account(ops[..|ops| - 1]);
      match ops[|ops| - 1]
      case Deliver(o) => Admit(h, o).history
      case Ack(o) => Acknowledge(h, o).history
  }

  lemma {:induction false} RunRefinesAccount(ops: seq<Op>)
    requires InRange(ops)
    ensures Refines(TrackerAfter(ops), Account(ops))
  {
    if ops == [] {
      assert Settled(NoHistory) == {};
    } else {
      var init := ops[..|ops| - 1];
      RunRefinesAccount(init);
      match ops[|ops| - 1]
      case Deliver(o) => AdmitRefines(TrackerAfter(init), Account(init), o);
      case Ack(o) => AcknowledgeRefines(TrackerAfter(init), Account(init), o);
    }
  }

  /**
   After any operations the frontier is an admitted offset (or the baseline) with everything
   admitted at or below it acknowledged, and no larger admitted offset has that property.
   */
  lemma FrontierIsExact(ops: seq<Op>)
    requires InRange(ops)
    ensures var t := TrackerAfter(ops); var h := Account(ops);
      && (t.frontier.None? <==> h.baseline.None?)
      && (t.frontier.Some? ==>
            && (t.frontier == h.baseline || t.frontier.value in h.admitted)
            && (forall a | a in h.admitted && a <= t.frontier.value :: a in h.acked)
            && (forall a | a in h.admitted && a > t.frontier.value ::
                  exists b | b in h.admitted :: b <= a && b !in h.acked))
  {
    hide TrackerAfter, Account, Valid;
    RunRefinesAccount(ops);
    var t, h := TrackerAfter(ops), Account(ops);
    if t.frontier.Some? {
      forall a | a in h.admitted && a <= t.frontier.value ensures a in h.acked {
        SettledIsBelowFrontier(h, a);
      }
      forall a | a in h.admitted && a > t.frontier.value
        ensures exists b | b in h.admitted :: b <= a && b !in h.acked
      {
        SettledIsBelowFrontier(h, a);
      }
    }
  }

  // ---------- the order of acknowledgements does not matter ----------

  ghost function Acks(t: Tracker, offsets: seq<int>): Outcome
    decreases |offsets|
  {
    if offsets == [] then Outcome(true, t)
    else
      var r := RecordAck(t, offsets[0]);
      if r.ok then Acks(r.tracker, offsets[1..]) else r
  }

  /** The client may acknowledge `offset`: it is outstanding or already settled. */
  ghost predicate Registered(t: Tracker, offset: int) {
    offset in t.delivered || (t.frontier.Some? && offset <= t.frontier.value)
  }

  ghost function Elements(offsets: seq<int>): set<int> {
    set i | 0 <= i < |offsets| :: offsets[i]
  }

  lemma ElementsOfTail(offsets: seq<int>)
    requires offsets != []
    ensures Elements(offsets) == {offsets[0]} + Elements(offsets[1..])
  {
    forall x | x in Elements(offsets) ensures x in {offsets[0]} + Elements(offsets[1..]) {
      var i :| 0 <= i < |offsets| && offsets[i] == x;
      if i > 0 { assert offsets[1..][i - 1] == x; }
    }
  }

  /** `t` with `more` acknowledged at once, then drained once. */
  ghost function AckedAtOnce(t: Tracker, more: set<int>): Tracker {
    Drained(t.(pending := t.pending + more * t.delivered))
  }

  lemma DrainedTwice(t: Tracker, more: set<int>, offset: int)
    requires Valid(t) && t.frontier.Some? && Registered(t, offset)
    requires I64_MIN < offset <= I64_MAX
    ensures RecordAck(AckedAtOnce(t, more), offset) == Outcome(true, AckedAtOnce(t, more + {offset}))
  {
    hide Kept, Drained;
    var t1 := t.(pending := t.pending + more * t.delivered);
    var t2 := t.(pending := t.pending + (more + {offset}) * t.delivered);
    var s := Drained(t1);
    DrainedIsValid(t1);
    DrainingTakesAcked(t1);
    if offset in s.delivered {
      assert t2.pending == t1.pending + {offset};
      DrainedAgain(t, t1, t2, s, offset);
    } else {
      if offset in t.delivered { assert offset in t.delivered - s.delivered; }
      assert t2.pending == t1.pending;
      assert t2 == t1;
    }
  }

  /** Draining leaves a part of what was delivered, and passes the rest. */
  lemma DrainingTakesAcked(t: Tracker)
    requires t.frontier.Some? && forall d | d in t.delivered :: t.frontier.value < d
    ensures Drained(t).delivered <= t.delivered && t.delivered - Drained(t).delivered <= t.pending
    ensures Drained(t).frontier.Some? && Drained(t).frontier.value >= t.frontier.value
    ensures forall x | x in t.delivered - Drained(t).delivered :: x <= Drained(t).frontier.value
  {
  }

  lemma DrainedAgain(t: Tracker, t1: Tracker, t2: Tracker, s: Tracker, offset: int)
    requires Valid(t) && t.frontier.Some? && offset in s.delivered && s == Drained(t1) && Valid(s)
    requires t1 == t.(pending := t1.pending) && t1.pending <= t.delivered && t2 == t.(pending := t1.pending + {offset})
    ensures Drained(s.(pending := s.pending + {offset})) == Drained(t2)
  {
    hide Kept;
    var s1 := s.(pending := s.pending + {offset});
    assert s1.pending == t2.pending * s.delivered;
    KeptInTwoSteps(t.delivered, t1.pending, t2.pending);
    ReleasedInTwoSteps(t, t1, t2, s, s1);
  }

  lemma KeptInTwoSteps(delivered: set<int>, first: set<int>, second: set<int>)
    requires first <= second <= delivered
    ensures var once := Kept(delivered, first);
            Kept(once, second * once) == Kept(delivered, second)
  {
    var once := Kept(delivered, first);
    var twice := Kept(once, second * once);
    forall x, y | x in delivered - twice && y in twice ensures x < y {
      if x !in once { assert x in delivered - once; }
    }
    KeptIsUnique(delivered, second, twice);
  }

  lemma ReleasedInTwoSteps(t: Tracker, t1: Tracker, t2: Tracker, s: Tracker, s1: Tracker)
    requires Valid(t) && t.frontier.Some?
    requires t1 == t.(pending := t1.pending) && t2 == t.(pending := t2.pending)
    requires t1.pending <= t2.pending <= t.delivered
    requires s == Drained(t1) && Valid(s)
    requires s1 == s.(pending := s1.pending) && s1.pending == t2.pending * s.delivered
    requires Kept(t.delivered, t2.pending) == Kept(s.delivered, s1.pending)
    ensures Drained(s1) == Drained(t2)
  {
    var kept := Kept(t.delivered, t2.pending);
    var second := s.delivered - kept;
    var all := t.delivered - kept;
    var first := t.delivered - s.delivered;
    assert all == first + second;
    assert t2.pending * kept == s1.pending * kept;
    if second != {} {
      forall x | x in first ensures x <= Max(second) { assert s.frontier == Some(Max(first)); }
      MaxOfLater(first, second);
    } else {
      assert all == first;
    }
    assert Drained(s1).frontier == Drained(t2).frontier;
    assert Drained(s1).delivered == kept == Drained(t2).delivered;
  }

  lemma MaxOfLater(first: set<int>, second: set<int>)
    requires second != {} && forall x | x in first :: x <= Max(second)
    ensures first + second != {} && Max(first + second) == Max(second)
  {
    assert Max(second) in first + second;
  }

  lemma {:induction false} AcksClosedForm(t: Tracker, more: set<int>, offsets: seq<int>)
    requires Valid(t) && t.frontier.Some?
    requires forall i | 0 <= i < |offsets| :: Registered(t, offsets[i]) && I64_MIN < offsets[i] <= I64_MAX
    ensures Acks(AckedAtOnce(t, more), offsets) == Outcome(true, AckedAtOnce(t, more + Elements(offsets)))
    decreases |offsets|
  {
    if offsets == [] {
      assert more + Elements(offsets) == more;
    } else {
      DrainedTwice(t, more, offsets[0]);
      AcksClosedForm(t, more + {offsets[0]}, offsets[1..]);
      ElementsOfTail(offsets);
      assert more + Elements(offsets) == more + {offsets[0]} + Elements(offsets[1..]);
    }
  }

  lemma DrainedFixed(t: Tracker)
    requires Valid(t)
    ensures AckedAtOnce(t, {}) == t
  {
    assert t.(pending := t.pending + {} * t.delivered) == t;
    assert t.pending * t.delivered == t.pending;
  }

  /**
   Two lists that acknowledge the same registered offsets, in any order and any number of
   times, both succeed and leave the same frontier, delivered set and pending set.
   */
  lemma AckOrderDoesNotMatter(t: Tracker, first: seq<int>, second: seq<int>)
    requires Valid(t)
    requires Elements(first) == Elements(second)
    requires forall i | 0 <= i < |first| :: Registered(t, first[i]) && I64_MIN < first[i] <= I64_MAX
    ensures Acks(t, first) == Acks(t, second)
    ensures Acks(t, first).ok
  {
    forall i | 0 <= i < |second| ensures Registered(t, second[i]) && I64_MIN < second[i] <= I64_MAX {
      assert second[i] in Elements(second);
      assert second[i] in Elements(first);
    }
    if t.frontier.Some? {
      DrainedFixed(t);
      AcksClosedForm(t, {}, first);
      AcksClosedForm(t, {}, second);
    }
  }

  // ---------- the object ----------

  class PartitionAckState {
    var frontier: Option<int>
    var delivered: set<int>
    var pending: set<int>
    var lastCommittedFrontier: Option<int>

    constructor ()
      ensures Value() == Fresh
    {
      frontier, delivered, pending, lastCommittedFrontier := None, {}, {}, None;
    }

    function Value(): Tracker
      reads this
    {
      Tracker(frontier, delivered, pending, lastCommittedFrontier)
    }

    ghost predicate Consistent()
      reads this
    {
      pending <= delivered
    }

    /** The offset `next` was committed. */
    method MarkCommitted(next: int)
      requires Consistent()
      modifies this
      ensures Consistent() && Value() == Committed(old(Value()), next)
    {
      lastCommittedFrontier := if next == I64_MIN then None else Some(next - 1);
    }

    method Deliver(offset: int) returns (ok: bool)
      requires Consistent() && I64_MIN < offset <= I64_MAX
      modifies this
      ensures Consistent()
      ensures Outcome(ok, Value()) == RecordDelivery(old(Value()), offset)
    {
      if frontier.Some? && offset <= frontier.value {
        return true;
      }
      if offset !in delivered && |delivered| >= MAX_OUTSTANDING_PER_PARTITION {
        return false;
      }
      if frontier.None? {
        var baseline := offset - 1;
        frontier := Some(baseline);
        lastCommittedFrontier := Some(baseline);
      }
      delivered := delivered + {offset};
      ok := true;
    }

    method Acknowledge(offset: int) returns (ok: bool)
      requires Consistent() && I64_MIN < offset <= I64_MAX
      modifies this
      ensures Consistent()
      ensures Outcome(ok, Value()) == RecordAck(old(Value()), offset)
    {
      if frontier.None? {
        var registered := Deliver(offset);
        if !registered {
          return false;
        }
      }
      if frontier.Some? && offset <= frontier.value {
        return true;
      }
      if offset !in delivered {
        return false;
      }
      pending := pending + {offset};
      Drain();
      ok := true;
    }

    method Drain()
      requires Consistent()
      modifies this`frontier, this`delivered, this`pending
      ensures Value() == Drained(old(Value()))
    {
      ghost var before := Value();
      ghost var released: set<int> := {};
      while delivered != {}
        invariant pending <= delivered <= before.delivered
        invariant released == before.delivered - delivered
        invariant pending == before.pending * delivered
        invariant released <= before.pending
        invariant forall r, d | r in released && d in delivered :: r < d
        invariant frontier == if released == {} then before.frontier else Some(Max(released))
        decreases delivered
      {
        var next := First(delivered);
        if next !in pending {
          KeptIsUnique(before.delivered, before.pending, delivered);
          return;
        }
        ghost var grown := released + {next};
        assert forall x | x in grown :: x <= next;
        assert Max(grown) == next;
        pending := pending - {next};
        delivered := delivered - {next};
        frontier := Some(next);
        released := grown;
      }
      KeptIsUnique(before.delivered, before.pending, {});
    }
  }
}
