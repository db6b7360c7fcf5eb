/** Batched filtering of a poll (streaming.rs). */
module BatchFilter {
  import opened Wrappers
  import opened Records

  // Consecutive Arrow records with one schema are filtered as one concatenated batch, consecutive
  // registry records with one schema id as one row batch, everything else one record at a time.
  //
  // The Arrow and DataFusion libraries enter as the functions of an `Engine`. Nothing is assumed of
  // them but what `Lawful` says: concatenation appends rows, every batch of one IPC stream has the
  // stream's schema, and an Arrow predicate decides each row on its own.

  datatype Row = Row(cells: seq<seq<Byte>>)

  /** `schema` is the compatibility key of the batch's schema. */
  datatype Batch = Batch(schema: string, rows: seq<Row>)

  type Mask = seq<Option<bool>>
  type FilterError = string

  datatype Engine = Engine(
    unfiltered: bool,
    decode: seq<Byte> -> Result<Option<seq<Batch>>, FilterError>,
    concat: seq<Batch> -> Result<seq<Row>, FilterError>,
    mask: (string, seq<Row>) -> Result<Mask, FilterError>,
    jsonMask: (I32, seq<Record>) -> Result<Mask, FilterError>,
    matchesJson: Record -> bool)

  const EMPTY_STREAM_KEY := "empty-arrow-ipc-stream"

  function SchemaKey(batches: seq<Batch>): string {
    if batches == [] then EMPTY_STREAM_KEY else batches[0].schema
  }

  function Rows(batches: seq<Batch>): seq<Row> {
    if batches == [] then [] else batches[0].rows + Rows(batches[1..])
  }

  ghost predicate Lawful(e: Engine, verdict: (string, Row) -> bool) {
    && (forall bs :: e.concat(bs).Ok? ==> e.concat(bs).value == Rows(bs))
    && (forall v :: e.decode(v).Ok? && e.decode(v).value.Some? ==> OneSchema(e.decode(v).value.value))
    && (forall schema, rows :: e.mask(schema, rows).Ok? ==>
          DecidesRows(e.mask(schema, rows).value, schema, rows, verdict))
  }

  ghost predicate OneSchema(batches: seq<Batch>) {
    forall i | 0 <= i < |batches| :: batches[i].schema == SchemaKey(batches)
  }

  ghost predicate DecidesRows(mask: Mask, schema: string, rows: seq<Row>, verdict: (string, Row) -> bool) {
    && |mask| == |rows|
    && forall i | 0 <= i < |rows| :: mask[i] == Some(true) <==> verdict(schema, rows[i])
  }

  /** No library call fails. */
  ghost predicate NeverFails(e: Engine) {
    && (forall bs :: e.concat(bs).Ok?)
    && (forall v :: e.decode(v).Ok?)
    && (forall schema, rows :: e.mask(schema, rows).Ok?)
    && (forall id, rs :: e.jsonMask(id, rs).Ok? && |e.jsonMask(id, rs).value| == |rs|)
  }

  // ---------- what each record is, and what its decision must be ----------

  datatype Kind = Arrow(batches: seq<Batch>) | SchemaJson(id: I32) | Fallback | Undecodable

  function KindOf(e: Engine, r: Record): Kind {
    var decoded := e.decode(r.value);
    if decoded.Err? then Undecodable
    else if decoded.value.Some? then Arrow(decoded.value.value)
    else if r.json.Some? && r.schemaId.Some? then SchemaJson(r.schemaId.value)
    else Fallback
  }

  ghost predicate SomeRowOf(verdict: (string, Row) -> bool, schema: string, rows: seq<Row>) {
    exists i | 0 <= i < |rows| :: verdict(schema, rows[i])
  }

  /** Some row of the record's own batches satisfies the filter. */
  ghost predicate SomeRow(verdict: (string, Row) -> bool, batches: seq<Batch>) {
    SomeRowOf(verdict, SchemaKey(batches), Rows(batches))
  }

  /** `records[a..b]` is a maximal stretch of registry records with schema id `id`. */
  ghost predicate MaximalRun(e: Engine, records: seq<Record>, a: int, b: int, id: I32) {
    && 0 <= a < b <= |records|
    && (forall k | a <= k < b :: KindOf(e, records[k]) == SchemaJson(id))
    && (a > 0 ==> KindOf(e, records[a - 1]) != SchemaJson(id))
    && (b < |records| ==> KindOf(e, records[b]) != SchemaJson(id))
  }

  ghost predicate DecidedInRun(e: Engine, records: seq<Record>, i: int, deliver: bool, a: int, b: int, id: I32) {
    && a <= i < b && MaximalRun(e, records, a, b, id)
    && var m := e.jsonMask(id, records[a..b]);
       m.Ok? && |m.value| == b - a && (deliver <==> m.value[i - a] == Some(true))
  }

  /** The decision on record `i` of the poll, as if no other Arrow record were there. */
  ghost predicate Decided(e: Engine, verdict: (string, Row) -> bool, records: seq<Record>, i: int, d: Decision)
    requires 0 <= i < |records|
  {
    && d.record == records[i]
    && match KindOf(e, records[i])
       case Arrow(batches) => d.Deliver? <==> SomeRow(verdict, batches)
       case SchemaJson(id) => exists a, b :: DecidedInRun(e, records, i, d.Deliver?, a, b, id)
       case Fallback => d.Deliver? <==> e.unfiltered || e.matchesJson(records[i])
       case Undecodable => false
  }

  // ---------- one Arrow group ----------

  datatype ArrowIpcRecord = ArrowIpcRecord(record: Record, batches: seq<Batch>, rowCount: nat)

  function AllBatches(records: seq<ArrowIpcRecord>): seq<Batch> {
    if records == [] then [] else records[0].batches + AllBatches(records[1..])
  }

  lemma {:induction false} RowsAppend(xs: seq<Batch>, ys: seq<Batch>)
    ensures Rows(xs + ys) == Rows(xs) + Rows(ys)
  {
    if xs == [] {
      assert xs + ys == ys;
    } else {
      assert (xs + ys)[1..] == xs[1..] + ys;
      RowsAppend(xs[1..], ys);
    }
  }

  function CountTrue(mask: Mask, start: nat, len: nat): (n: nat)
    requires start + len <= |mask|
    ensures n > 0 <==> exists i | start <= i < start + len :: mask[i] == Some(true)
  {
    if len == 0 then 0
    else CountTrue(mask, start, len - 1) + if mask[start + len - 1] == Some(true) then 1 else 0
  }

  lemma {:induction false} AllBatchesSplit(records: seq<ArrowIpcRecord>, k: nat)
    requires k <= |records|
    ensures AllBatches(records) == AllBatches(records[..k]) + AllBatches(records[k..])
  {
    if k > 0 {
      AllBatchesSplit(records[1..], k - 1);
      assert records[..k][1..] == records[1..][..k - 1];
      assert records[1..][k - 1..] == records[k..];
    } else {
      assert records[k..] == records;
    }
  }

  /** Where record `k`'s rows sit in the concatenated batch. */
  lemma RowsOfRecord(records: seq<ArrowIpcRecord>, k: nat)
    requires k < |records|
    ensures var before := Rows(AllBatches(records[..k]));
            var mine := Rows(records[k].batches);
            var all := Rows(AllBatches(records));
      && |before| + |mine| <= |all|
      && all[|before|..|before| + |mine|] == mine
      && Rows(AllBatches(records[..k + 1])) == before + mine
  {
    hide Rows, AllBatches;
    BatchesOneMore(records, k);
    RowsAppend(AllBatches(records[..k]), records[k].batches);
    AllBatchesSplit(records, k + 1);
    RowsAppend(AllBatches(records[..k + 1]), AllBatches(records[k + 1..]));
  }

  lemma BatchesOneMore(records: seq<ArrowIpcRecord>, k: nat)
    requires k < |records|
    ensures AllBatches(records[..k + 1]) == AllBatches(records[..k]) + records[k].batches
  {
    AllBatchesSplit(records[..k + 1], k);
    assert records[..k + 1][..k] == records[..k];
    assert records[..k + 1][k..] == [records[k]];
    assert AllBatches([records[k]]) == records[k].batches + AllBatches([]) == records[k].batches;
  }

  ghost predicate InGroup(e: Engine, key: string, records: seq<ArrowIpcRecord>) {
    forall i | 0 <= i < |records| ::
      && KindOf(e, records[i].record) == Arrow(records[i].batches)
      && SchemaKey(records[i].batches) == key
      && records[i].rowCount == |Rows(records[i].batches)|
  }

  lemma {:induction false} GroupHasOneSchema(e: Engine, verdict: (string, Row) -> bool, key: string,
                                             records: seq<ArrowIpcRecord>, i: nat)
    requires Lawful(e, verdict) && InGroup(e, key, records) && i < |AllBatches(records)|
    ensures AllBatches(records)[i].schema == key
  {
    var first := records[0].batches;
    assert OneSchema(first) by {
      assert e.decode(records[0].record.value).value.value == first;
    }
    if i >= |first| {
      assert InGroup(e, key, records[1..]);
      GroupHasOneSchema(e, verdict, key, records[1..], i - |first|);
    }
  }

  /** `tail` decides the group's records one by one. */
  ghost predicate GroupDecided(verdict: (string, Row) -> bool, records: seq<ArrowIpcRecord>, tail: seq<Decision>) {
    && |tail| == |records|
    && forall i | 0 <= i < |records| ::
         && tail[i].record == records[i].record
         && (tail[i].Deliver? <==> SomeRow(verdict, records[i].batches))
  }

  lemma MaskSlice(mask: Mask, key: string, records: seq<ArrowIpcRecord>, k: nat, verdict: (string, Row) -> bool)
    requires k < |records| && SchemaKey(records[k].batches) == key
    requires DecidesRows(mask, key, Rows(AllBatches(records)), verdict)
    ensures var start := |Rows(AllBatches(records[..k]))|; var len := |Rows(records[k].batches)|;
      && start + len <= |mask|
      && (CountTrue(mask, start, len) > 0 <==> SomeRow(verdict, records[k].batches))
  {
    hide Rows, AllBatches, SchemaKey;
    RowsOfRecord(records, k);
    var start := |Rows(AllBatches(records[..k]))|;
    var mine, all := Rows(records[k].batches), Rows(AllBatches(records));
    forall j | 0 <= j < |mine| ensures all[start + j] == mine[j] {
      assert all[start..start + |mine|][j] == mine[j];
    }
    if SomeRow(verdict, records[k].batches) {
      var j :| 0 <= j < |mine| && verdict(key, mine[j]);
      assert mask[start + j] == Some(true);
    }
    if CountTrue(mask, start, |mine|) > 0 {
      var i :| start <= i < start + |mine| && mask[i] == Some(true);
      assert all[i] == mine[i - start];
    }
  }

  /** No batch means no row: every record of the group is filtered out. */
  method FilterAll(ghost verdict: (string, Row) -> bool, records: seq<ArrowIpcRecord>)
    returns (decisions: seq<Decision>)
    requires AllBatches(records) == []
    ensures GroupDecided(verdict, records, decisions)
  {
    decisions := [];
    for k := 0 to |records|
      invariant GroupDecided(verdict, records[..k], decisions)
    {
      NoBatchNoRow(verdict, records, k);
      assert records[..k + 1] == records[..k] + [records[k]];
      decisions := decisions + [Filter(records[k].record)];
    }
    assert records[..|records|] == records;
  }

  lemma NoBatchNoRow(verdict: (string, Row) -> bool, records: seq<ArrowIpcRecord>, k: nat)
    requires AllBatches(records) == [] && k < |records|
    ensures !SomeRow(verdict, records[k].batches)
  {
    RowsOfRecord(records, k);
  }

  /** Walk the mask of the concatenated batch record by record. */
  method ApplyMask(mask: Mask, ghost key: string, ghost verdict: (string, Row) -> bool, records: seq<ArrowIpcRecord>)
    returns (decisions: seq<Decision>)
    requires forall i | 0 <= i < |records| ::
               SchemaKey(records[i].batches) == key && records[i].rowCount == |Rows(records[i].batches)|
    requires DecidesRows(mask, key, Rows(AllBatches(records)), verdict)
    ensures GroupDecided(verdict, records, decisions)
  {
    decisions := [];
    var rowOffset := 0;
    for k := 0 to |records|
      invariant rowOffset == |Rows(AllBatches(records[..k]))| && |decisions| == k
      invariant forall i | 0 <= i < k ::
        decisions[i].record == records[i].record && (decisions[i].Deliver? <==> SomeRow(verdict, records[i].batches))
    {
      MaskSlice(mask, key, records, k, verdict);
      RowsOfRecord(records, k);
      var matching := CountTrue(mask, rowOffset, records[k].rowCount);
      rowOffset := rowOffset + records[k].rowCount;
      decisions := decisions + [if matching > 0 then Deliver(records[k].record) else Filter(records[k].record)];
    }
  }

  method FilterArrowIpcGroup(e: Engine, ghost verdict: (string, Row) -> bool, ghost key: string,
                             records: seq<ArrowIpcRecord>)
    returns (r: Result<seq<Decision>, FilterError>)
    requires Lawful(e, verdict) && InGroup(e, key, records)
    ensures NeverFails(e) ==> r.Ok?
    ensures r.Ok? ==> GroupDecided(verdict, records, r.value)
  {
    var batches := AllBatches(records);
    if batches == [] {
      var decisions := FilterAll(verdict, records);
      return Ok(decisions);
    }
    GroupHasOneSchema(e, verdict, key, records, 0);
    var rows := e.concat(batches);
    if rows.Err? {
      return Err(rows.error);
    }
    var mask := e.mask(batches[0].schema, rows.value);
    if mask.Err? {
      return Err(mask.error);
    }
    var decisions := ApplyMask(mask.value, key, verdict, records);
    r := Ok(decisions);
  }

  class ArrowIpcRecordGroup {
    var schemaKey: Option<string>
    var records: seq<ArrowIpcRecord>

    constructor ()
      ensures schemaKey.None? && records == []
    {
      schemaKey, records := None, [];
    }

    ghost predicate Valid(e: Engine)
      reads this
    {
      && (schemaKey.None? <==> records == [])
      && (schemaKey.Some? ==> InGroup(e, schemaKey.value, records))
    }

    predicate Accepts(key: string)
      reads this
    {
      schemaKey.None? || schemaKey.value == key
    }

    method Push(ghost e: Engine, key: string, record: ArrowIpcRecord)
      requires Valid(e) && Accepts(key) && InGroup(e, key, [record])
      modifies this
      ensures Valid(e) && records == old(records) + [record]
    {
      assert InGroup(e, key, records + [record]) by {
        assert [record][0] == record;
      }
      if schemaKey.None? {
        schemaKey := Some(key);
      }
      records := records + [record];
    }

    method DrainFilteringInto(e: Engine, ghost verdict: (string, Row) -> bool, decisions: seq<Decision>)
      returns (r: Result<seq<Decision>, FilterError>)
      requires Valid(e) && Lawful(e, verdict)
      modifies this
      ensures schemaKey.None? && records == []
      ensures NeverFails(e) ==> r.Ok?
      ensures r.Ok? ==> decisions <= r.value && GroupDecided(verdict, old(records), r.value[|decisions|..])
    {
      if records == [] {
        return Ok(decisions);
      }
      var taken := records;
      ghost var key := schemaKey.value;
      records, schemaKey := [], None;
      var tail := FilterArrowIpcGroup(e, verdict, key, taken);
      if tail.Err? {
        return tail;
      }
      r := Ok(decisions + tail.value);
      assert r.value[|decisions|..] == tail.value;
    }
  }

  ghost predicate JsonGroupDecided(e: Engine, id: I32, records: seq<Record>, tail: seq<Decision>) {
    var m := e.jsonMask(id, records);
    && m.Ok? && |m.value| == |records| == |tail|
    && forall i | 0 <= i < |records| ::
         tail[i].record == records[i] && (tail[i].Deliver? <==> m.value[i] == Some(true))
  }

  method FilterSchemaJsonGroup(e: Engine, id: I32, records: seq<Record>)
    returns (r: Result<seq<Decision>, FilterError>)
    ensures NeverFails(e) ==> r.Ok?
    ensures r.Ok? ==> JsonGroupDecided(e, id, records, r.value)
  {
    var mask := e.jsonMask(id, records);
    if mask.Err? {
      return Err(mask.error);
    }
    if |mask.value| != |records| {
      return Err("schema-registry row bridge produced a mask of another length");
    }
    var decisions: seq<Decision> := [];
    for row := 0 to |records|
      invariant |decisions| == row
      invariant forall i | 0 <= i < row ::
        decisions[i].record == records[i] && (decisions[i].Deliver? <==> mask.value[i] == Some(true))
    {
      decisions := decisions +
        [if mask.value[row] == Some(true) then Deliver(records[row]) else Filter(records[row])];
    }
    r := Ok(decisions);
  }

  class SchemaJsonRecordGroup {
    var schemaId: Option<I32>
    var records: seq<Record>

    constructor ()
      ensures schemaId.None? && records == []
    {
      schemaId, records := None, [];
    }

    ghost predicate Valid(e: Engine)
      reads this
    {
      && (schemaId.None? <==> records == [])
      && (schemaId.Some? ==> forall i | 0 <= i < |records| :: KindOf(e, records[i]) == SchemaJson(schemaId.value))
    }

    predicate Accepts(id: I32)
      reads this
    {
      schemaId.None? || schemaId.value == id
    }

    method Push(ghost e: Engine, id: I32, record: Record)
      requires Valid(e) && Accepts(id) && KindOf(e, record) == SchemaJson(id)
      modifies this
      ensures Valid(e) && records == old(records) + [record] && schemaId == Some(id)
    {
      if schemaId.None? {
        schemaId := Some(id);
      }
      records := records + [record];
    }

    method DrainFilteringInto(e: Engine, decisions: seq<Decision>) returns (r: Result<seq<Decision>, FilterError>)
      requires Valid(e)
      modifies this
      ensures schemaId.None? && records == []
      ensures NeverFails(e) ==> r.Ok?
      ensures r.Ok? && old(records) == [] ==> r.value == decisions
      ensures r.Ok? && old(records) != [] ==>
        decisions <= r.value && JsonGroupDecided(e, old(schemaId).value, old(records), r.value[|decisions|..])
    {
      if records == [] {
        return Ok(decisions);
      }
      var taken, id := records, schemaId.value;
      records, schemaId := [], None;
      var tail := FilterSchemaJsonGroup(e, id, taken);
      if tail.Err? {
        return tail;
      }
      r := Ok(decisions + tail.value);
      assert r.value[|decisions|..] == tail.value;
    }
  }

  // ---------- the whole poll ----------

  ghost predicate AllDecided(e: Engine, verdict: (string, Row) -> bool, records: seq<Record>, decisions: seq<Decision>) {
    && |decisions| <= |records|
    && forall j | 0 <= j < |decisions| :: Decided(e, verdict, records, j, decisions[j])
  }

  lemma DecidedKeepsRecord(e: Engine, verdict: (string, Row) -> bool, records: seq<Record>, decisions: seq<Decision>, i: nat)
    requires AllDecided(e, verdict, records, decisions) && i < |decisions|
    ensures decisions[i].record == records[i]
  {
  }

  /** The waiting Arrow group is exactly the records from `n` up to `i`. */
  ghost predicate ArrowWaiting(records: seq<Record>, n: int, i: int, waiting: seq<ArrowIpcRecord>) {
    && 0 <= n <= i <= |records| && |waiting| == i - n
    && forall k | 0 <= k < |waiting| :: waiting[k].record == records[n + k]
  }

  lemma ArrowDrained(e: Engine, verdict: (string, Row) -> bool, records: seq<Record>, i: int, key: string,
                     waiting: seq<ArrowIpcRecord>, before: seq<Decision>, after: seq<Decision>)
    requires AllDecided(e, verdict, records, before) && ArrowWaiting(records, |before|, i, waiting)
    requires InGroup(e, key, waiting)
    requires before <= after && GroupDecided(verdict, waiting, after[|before|..])
    ensures |after| == i && AllDecided(e, verdict, records, after)
  {
    forall j | 0 <= j < |after| ensures Decided(e, verdict, records, j, after[j]) {
      if j < |before| {
        assert after[j] == before[j];
      } else {
        var k := j - |before|;
        assert after[j] == after[|before|..][k];
        assert waiting[k].record == records[j];
      }
    }
  }

  lemma JsonDrained(e: Engine, verdict: (string, Row) -> bool, records: seq<Record>, i: int, id: I32,
                    before: seq<Decision>, after: seq<Decision>)
    requires AllDecided(e, verdict, records, before) && MaximalRun(e, records, |before|, i, id)
    requires before <= after && JsonGroupDecided(e, id, records[|before|..i], after[|before|..])
    ensures |after| == i && AllDecided(e, verdict, records, after)
  {
    forall j | 0 <= j < |after| ensures Decided(e, verdict, records, j, after[j]) {
      if j < |before| {
        assert after[j] == before[j];
      } else {
        var k := j - |before|;
        assert after[j] == after[|before|..][k];
        assert records[|before|..i][k] == records[j];
        assert DecidedInRun(e, records, j, after[j].Deliver?, |before|, i, id);
      }
    }
  }

  ghost predicate SameRun(e: Engine, r: Record, next: Record) {
    KindOf(e, r).SchemaJson? && KindOf(e, next) == KindOf(e, r)
  }

  /** What the loop knows before record `i`: at most one group waits, and it is what is not decided yet. */
  ghost predicate Waiting(e: Engine, verdict: (string, Row) -> bool, records: seq<Record>, i: int,
                          decisions: seq<Decision>, arrow: seq<ArrowIpcRecord>, json: seq<Record>, id: Option<I32>)
  {
    && 0 <= i <= |records|
    && AllDecided(e, verdict, records, decisions)
    && (json == [] ==> ArrowWaiting(records, |decisions|, i, arrow))
    && (json != [] ==>
          && arrow == [] && id.Some? && |decisions| < i && json == records[|decisions|..i]
          && (forall k | |decisions| <= k < i :: KindOf(e, records[k]) == SchemaJson(id.value))
          && (|decisions| > 0 ==> KindOf(e, records[|decisions| - 1]) != SchemaJson(id.value)))
    && (json == [] && 0 < i < |records| ==> !SameRun(e, records[i - 1], records[i]))
  }

  method DrainArrow(e: Engine, ghost verdict: (string, Row) -> bool, ghost records: seq<Record>, ghost i: nat,
                    arrow: ArrowIpcRecordGroup, ghost json: SchemaJsonRecordGroup, decisions: seq<Decision>)
    returns (r: Result<seq<Decision>, FilterError>)
    requires Lawful(e, verdict) && arrow.Valid(e) && json.Valid(e)
    requires Waiting(e, verdict, records, i, decisions, arrow.records, json.records, json.schemaId)
    modifies arrow
    ensures arrow.records == [] && arrow.Valid(e)
    ensures NeverFails(e) ==> r.Ok?
    ensures r.Ok? ==> Waiting(e, verdict, records, i, r.value, [], json.records, json.schemaId)
  {
    ghost var waiting, key := arrow.records, arrow.schemaKey;
    r := arrow.DrainFilteringInto(e, verdict, decisions);
    if r.Ok? {
      if waiting != [] {
        ArrowDrained(e, verdict, records, i, key.value, waiting, decisions, r.value);
      } else {
        assert r.value[|decisions|..] == [];
        assert r.value == decisions;
      }
    }
  }

  method DrainJson(e: Engine, ghost verdict: (string, Row) -> bool, ghost records: seq<Record>, ghost i: nat,
                   ghost arrow: ArrowIpcRecordGroup, json: SchemaJsonRecordGroup, decisions: seq<Decision>)
    returns (r: Result<seq<Decision>, FilterError>)
    requires arrow.Valid(e) && json.Valid(e)
    requires Waiting(e, verdict, records, i, decisions, arrow.records, json.records, json.schemaId)
    requires json.records != [] && i < |records| ==> KindOf(e, records[i]) != SchemaJson(json.schemaId.value)
    modifies json
    ensures json.records == [] && json.Valid(e)
    ensures NeverFails(e) ==> r.Ok?
    ensures r.Ok? ==> Waiting(e, verdict, records, i, r.value, arrow.records, [], None)
  {
    ghost var jsons, id := json.records, json.schemaId;
    r := json.DrainFilteringInto(e, decisions);
    if r.Ok? && jsons != [] {
      JsonDrained(e, verdict, records, i, id.value, decisions, r.value);
    }
  }

  /**
   On success there is one decision per record, in poll order, and each Arrow record's verdict
   is that of its own rows; registry records are decided by the mask of their maximal run.
   */
  method FilterPolledRecords(e: Engine, ghost verdict: (string, Row) -> bool, records: seq<Record>)
    returns (r: Result<seq<Decision>, FilterError>)
    requires Lawful(e, verdict)
    ensures NeverFails(e) ==> r.Ok?
    ensures r.Ok? ==> |r.value| == |records| && AllDecided(e, verdict, records, r.value)
  {
    var decisions: seq<Decision> := [];
    var arrow := new ArrowIpcRecordGroup();
    var json := new SchemaJsonRecordGroup();
    for i := 0 to |records|
      invariant arrow.Valid(e) && json.Valid(e) && fresh(arrow) && fresh(json)
      invariant Waiting(e, verdict, records, i, decisions, arrow.records, json.records, json.schemaId)
    {
      var next := TakeRecord(e, verdict, records, i, arrow, json, decisions);
      if next.Err? {
        return next;
      }
      decisions := next.value;
    }
    r := DrainArrow(e, verdict, records, |records|, arrow, json, decisions);
    if r.Ok? {
      r := DrainJson(e, verdict, records, |records|, arrow, json, r.value);
    }
  }

  lemma JoinsArrow(e: Engine, verdict: (string, Row) -> bool, records: seq<Record>, i: nat,
                   decisions: seq<Decision>, arrow: seq<ArrowIpcRecord>, r: ArrowIpcRecord)
    requires Waiting(e, verdict, records, i, decisions, arrow, [], None)
    requires i < |records| && KindOf(e, records[i]).Arrow? && r.record == records[i]
    ensures Waiting(e, verdict, records, i + 1, decisions, arrow + [r], [], None)
  {
  }

  lemma JoinsJson(e: Engine, verdict: (string, Row) -> bool, records: seq<Record>, i: nat,
                  decisions: seq<Decision>, json: seq<Record>, id: Option<I32>, newId: I32)
    requires Waiting(e, verdict, records, i, decisions, [], json, id)
    requires i < |records| && KindOf(e, records[i]) == SchemaJson(newId) && (json != [] ==> id == Some(newId))
    ensures Waiting(e, verdict, records, i + 1, decisions, [], json + [records[i]], Some(newId))
  {
    var n := |decisions|;
    assert records[n..i + 1] == records[n..i] + [records[i]];
    if json == [] {
      assert n == i;
      if n > 0 { assert !SameRun(e, records[n - 1], records[n]); }
    }
  }

  lemma FallsBack(e: Engine, verdict: (string, Row) -> bool, records: seq<Record>, i: nat,
                  decisions: seq<Decision>, d: Decision)
    requires Waiting(e, verdict, records, i, decisions, [], [], None)
    requires i < |records| && KindOf(e, records[i]).Fallback? && Decided(e, verdict, records, i, d)
    ensures Waiting(e, verdict, records, i + 1, decisions + [d], [], [], None)
  {
  }

  method TakeArrow(e: Engine, ghost verdict: (string, Row) -> bool, records: seq<Record>, i: nat,
                   batches: seq<Batch>, arrow: ArrowIpcRecordGroup, json: SchemaJsonRecordGroup,
                   decisions: seq<Decision>)
    returns (r: Result<seq<Decision>, FilterError>)
    requires Lawful(e, verdict) && arrow.Valid(e) && json.Valid(e)
    requires i < |records| && KindOf(e, records[i]) == Arrow(batches)
    requires Waiting(e, verdict, records, i, decisions, arrow.records, json.records, json.schemaId)
    modifies arrow, json
    ensures arrow.Valid(e) && json.Valid(e)
    ensures NeverFails(e) ==> r.Ok?
    ensures r.Ok? ==> Waiting(e, verdict, records, i + 1, r.value, arrow.records, json.records, json.schemaId)
  {
    r := DrainJson(e, verdict, records, i, arrow, json, decisions);
    if r.Err? {
      return;
    }
    var arrowRecord := ArrowIpcRecord(records[i], batches, |Rows(batches)|);
    var key := SchemaKey(batches);
    if !arrow.Accepts(key) {
      r := DrainArrow(e, verdict, records, i, arrow, json, r.value);
      if r.Err? {
        return;
      }
    }
    JoinsArrow(e, verdict, records, i, r.value, arrow.records, arrowRecord);
    arrow.Push(e, key, arrowRecord);
  }

  method TakeSchemaJson(e: Engine, ghost verdict: (string, Row) -> bool, records: seq<Record>, i: nat,
                        id: I32, arrow: ArrowIpcRecordGroup, json: SchemaJsonRecordGroup,
                        decisions: seq<Decision>)
    returns (r: Result<seq<Decision>, FilterError>)
    requires Lawful(e, verdict) && arrow.Valid(e) && json.Valid(e)
    requires i < |records| && KindOf(e, records[i]) == SchemaJson(id)
    requires Waiting(e, verdict, records, i, decisions, arrow.records, json.records, json.schemaId)
    modifies arrow, json
    ensures arrow.Valid(e) && json.Valid(e)
    ensures NeverFails(e) ==> r.Ok?
    ensures r.Ok? ==> Waiting(e, verdict, records, i + 1, r.value, arrow.records, json.records, json.schemaId)
  {
    r := DrainArrow(e, verdict, records, i, arrow, json, decisions);
    if r.Err? {
      return;
    }
    if !json.Accepts(id) {
      r := DrainJson(e, verdict, records, i, arrow, json, r.value);
      if r.Err? {
        return;
      }
    }
    JoinsJson(e, verdict, records, i, r.value, json.records, json.schemaId, id);
    json.Push(e, id, records[i]);
  }

  method TakeFallback(e: Engine, ghost verdict: (string, Row) -> bool, records: seq<Record>, i: nat,
                      arrow: ArrowIpcRecordGroup, json: SchemaJsonRecordGroup, decisions: seq<Decision>)
    returns (r: Result<seq<Decision>, FilterError>)
    requires Lawful(e, verdict) && arrow.Valid(e) && json.Valid(e)
    requires i < |records| && KindOf(e, records[i]).Fallback?
    requires Waiting(e, verdict, records, i, decisions, arrow.records, json.records, json.schemaId)
    modifies arrow, json
    ensures arrow.Valid(e) && json.Valid(e)
    ensures NeverFails(e) ==> r.Ok?
    ensures r.Ok? ==> Waiting(e, verdict, records, i + 1, r.value, arrow.records, json.records, json.schemaId)
  {
    r := DrainArrow(e, verdict, records, i, arrow, json, decisions);
    if r.Err? {
      return;
    }
    r := DrainJson(e, verdict, records, i, arrow, json, r.value);
    if r.Err? {
      return;
    }
    var d := if e.unfiltered || e.matchesJson(records[i]) then Deliver(records[i]) else Filter(records[i]);
    FallsBack(e, verdict, records, i, r.value, d);
    r := Ok(r.value + [d]);
  }

  /** The loop body. */
  method TakeRecord(e: Engine, ghost verdict: (string, Row) -> bool, records: seq<Record>, i: nat,
                    arrow: ArrowIpcRecordGroup, json: SchemaJsonRecordGroup, decisions: seq<Decision>)
    returns (r: Result<seq<Decision>, FilterError>)
    requires Lawful(e, verdict) && arrow.Valid(e) && json.Valid(e) && i < |records|
    requires Waiting(e, verdict, records, i, decisions, arrow.records, json.records, json.schemaId)
    modifies arrow, json
    ensures arrow.Valid(e) && json.Valid(e)
    ensures NeverFails(e) ==> r.Ok?
    ensures r.Ok? ==> Waiting(e, verdict, records, i + 1, r.value, arrow.records, json.records, json.schemaId)
  {
    match KindOf(e, records[i])
    case Undecodable => r := Err(e.decode(records[i].value).error);
    case Arrow(batches) => r := TakeArrow(e, verdict, records, i, batches, arrow, json, decisions);
    case SchemaJson(id) => r := TakeSchemaJson(e, verdict, records, i, id, arrow, json, decisions);
    case Fallback => r := TakeFallback(e, verdict, records, i, arrow, json, decisions);
  }

  // ---------- the record-at-a-time filter ----------

  /** `evaluate_decoded_record`: the matching rows of every batch of one record, summed. */
  function MatchingRows(e: Engine, batches: seq<Batch>): Result<nat, FilterError> {
    if batches == [] then Ok(0)
    else
      var mask := e.mask(batches[0].schema, batches[0].rows);
      if mask.Err? then Err(mask.error)
      else
        var rest := MatchingRows(e, batches[1..]);
        if rest.Err? then rest
        else Ok(CountTrue(mask.value, 0, |mask.value|) + rest.value)
  }

  /** Whether the record-at-a-time filter delivers `r`. */
  function DeliversAlone(e: Engine, r: Record): Result<bool, FilterError> {
    if e.unfiltered then Ok(true)
    else
      var decoded := e.decode(r.value);
      if decoded.Err? then Err(decoded.error)
      else if decoded.value.None? then Ok(e.matchesJson(r))
      else
        var n := MatchingRows(e, decoded.value.value);
        if n.Err? then Err(n.error) else Ok(n.value > 0)
  }

  lemma {:induction false} MatchingRowsMeansSomeRow(e: Engine, verdict: (string, Row) -> bool,
                                                    batches: seq<Batch>, key: string)
    requires Lawful(e, verdict) && MatchingRows(e, batches).Ok?
    requires forall i | 0 <= i < |batches| :: batches[i].schema == key
    ensures MatchingRows(e, batches).value > 0 <==> SomeRowOf(verdict, key, Rows(batches))
  {
    if batches != [] {
      var rest := batches[1..];
      MatchingRowsMeansSomeRow(e, verdict, rest, key);
      var mask := e.mask(key, batches[0].rows).value;
      assert DecidesRows(mask, key, batches[0].rows, verdict);
      var first, all := batches[0].rows, Rows(batches);
      assert all == first + Rows(rest);
      if CountTrue(mask, 0, |mask|) > 0 {
        var i :| 0 <= i < |mask| && mask[i] == Some(true);
        assert verdict(key, all[i]);
      }
      if MatchingRows(e, rest).value > 0 {
        var i :| 0 <= i < |Rows(rest)| && verdict(key, Rows(rest)[i]);
        assert verdict(key, all[|first| + i]);
      }
      if i :| 0 <= i < |all| && verdict(key, all[i]) {
        if i < |first| {
          assert mask[i] == Some(true);
        } else {
          assert verdict(key, Rows(rest)[i - |first|]);
        }
      }
    }
  }

  /**
   The batched path and the record-at-a-time path agree on an Arrow or fallback record, except
   that an unfiltered subscription delivers an Arrow record without rows only on the latter.
   */
  lemma BatchedAgreesWithAlone(e: Engine, verdict: (string, Row) -> bool, records: seq<Record>, i: nat, d: Decision)
    requires Lawful(e, verdict) && i < |records| && Decided(e, verdict, records, i, d)
    requires !KindOf(e, records[i]).SchemaJson? && DeliversAlone(e, records[i]).Ok?
    requires e.unfiltered ==> forall schema, row :: verdict(schema, row)
    ensures DeliversAlone(e, records[i]).value == d.Deliver?
       <==> !(e.unfiltered && KindOf(e, records[i]).Arrow? && Rows(KindOf(e, records[i]).batches) == [])
  {
    match KindOf(e, records[i])
    case Arrow(batches) =>
      assert OneSchema(batches);
      if e.unfiltered {
        if Rows(batches) != [] { assert verdict(SchemaKey(batches), Rows(batches)[0]); }
      } else {
        MatchingRowsMeansSomeRow(e, verdict, batches, SchemaKey(batches));
        assert DeliversAlone(e, records[i]).value == (MatchingRows(e, batches).value > 0);
        assert SomeRow(verdict, batches) == (MatchingRows(e, batches).value > 0);
      }
    case Fallback =>
  }

  /** Libraries that read every value as an Arrow stream without batches and let every row pass. */
  function EmptyStreams(): Engine {
    Engine(true, _ => Ok(Some([])), batches => Ok(Rows(batches)),
           (_, rows) => Ok(AllTrue(|rows|)), (_, records) => Ok(AllTrue(|records|)), _ => true)
  }

  function AllTrue(n: nat): Mask { seq(n, _ => Some(true)) }

  /** The exception happens: unfiltered, one path delivers a record without rows and the other does not. */
  lemma EmptyRecordIsFiltered(r: Record)
    ensures var e := EmptyStreams(); var verdict := (_: string, _: Row) => true;
      && Lawful(e, verdict) && NeverFails(e) && e.unfiltered
      && KindOf(e, r) == Arrow([])
      && DeliversAlone(e, r) == Ok(true)
      && forall d: Decision :: Decided(e, verdict, [r], 0, d) <==> d == Filter(r)
  {
    var e, verdict := EmptyStreams(), (_: string, _: Row) => true;
    forall schema, rows ensures DecidesRows(e.mask(schema, rows).value, schema, rows, verdict) {}
    assert !SomeRow(verdict, []);
  }

  // ---------- which records are filtered together ----------

  /** A decoded registry record with schema id `id`: its value is no Arrow stream, and it has JSON rows and a schema. */
  predicate OfRegistry(e: Engine, r: Record, id: I32) {
    e.decode(r.value) == Ok(None) && r.json != None && r.schemaId == Some(id)
  }

  /** `records[a..b]` are registry records of one schema id, and the records on either side are not. */
  predicate RegistryRun(e: Engine, records: seq<Record>, a: int, b: int, id: I32) {
    && 0 <= a < b <= |records|
    && (forall k | a <= k < b :: OfRegistry(e, records[k], id))
    && (a > 0 ==> !OfRegistry(e, records[a - 1], id))
    && (b < |records| ==> !OfRegistry(e, records[b], id))
  }

  ghost predicate DecidedByMask(e: Engine, records: seq<Record>, i: int, deliver: bool, a: int, b: int, id: I32) {
    && a <= i < b && RegistryRun(e, records, a, b, id)
    && var m := e.jsonMask(id, records[a..b]);
       m.Ok? && |m.value| == b - a && (deliver <==> m.value[i - a] == Some(true))
  }

  lemma OfRegistryMeans(e: Engine, r: Record, id: I32)
    ensures OfRegistry(e, r, id) <==> KindOf(e, r) == SchemaJson(id)
  {
  }

  lemma RunMeans(e: Engine, records: seq<Record>, a: int, b: int, id: I32)
    ensures RegistryRun(e, records, a, b, id) <==> MaximalRun(e, records, a, b, id)
  {
    hide OfRegistry, KindOf;
    forall k | 0 <= k < |records| ensures OfRegistry(e, records[k], id) <==> KindOf(e, records[k]) == SchemaJson(id) {
      OfRegistryMeans(e, records[k], id);
    }
  }

  /**
   How a record of a poll is decided, in terms of its value, its JSON and its schema: an Arrow record
   by its own rows; one with JSON rows and a schema by the mask of the run of that schema it stands in;
   any other by itself. A poll with a value that cannot be decoded has no decisions.
   */
  lemma DecidedExactly(e: Engine, verdict: (string, Row) -> bool, records: seq<Record>, i: int, d: Decision)
    requires 0 <= i < |records|
    ensures Decided(e, verdict, records, i, d) <==>
      var r := records[i];
      && d.record == r && e.decode(r.value).Ok?
      && if e.decode(r.value).value.Some? then d.Deliver? <==> SomeRow(verdict, e.decode(r.value).value.value)
         else if r.json.Some? && r.schemaId.Some? then
           exists a, b :: DecidedByMask(e, records, i, d.Deliver?, a, b, r.schemaId.value)
         else d.Deliver? <==> e.unfiltered || e.matchesJson(r)
  {
    hide MaximalRun, RegistryRun, SomeRow;
    var r := records[i];
    if r.schemaId.Some? {
      var id := r.schemaId.value;
      forall a, b ensures DecidedByMask(e, records, i, d.Deliver?, a, b, id) <==> DecidedInRun(e, records, i, d.Deliver?, a, b, id) {
        RunMeans(e, records, a, b, id);
      }
      if a, b :| DecidedByMask(e, records, i, d.Deliver?, a, b, id) { assert DecidedInRun(e, records, i, d.Deliver?, a, b, id); }
      if a, b :| DecidedInRun(e, records, i, d.Deliver?, a, b, id) { assert DecidedByMask(e, records, i, d.Deliver?, a, b, id); }
    }
  }

  /** When the record-at-a-time filter delivers a record, and when it fails. */
  lemma DeliversAloneExactly(e: Engine, verdict: (string, Row) -> bool, r: Record)
    requires Lawful(e, verdict)
    ensures var alone := DeliversAlone(e, r); var decoded := e.decode(r.value);
      && (alone == Ok(true) <==>
            || e.unfiltered
            || (decoded == Ok(None) && e.matchesJson(r))
            || (decoded.Ok? && decoded.value.Some? && AllMasked(e, decoded.value.value) && SomeRow(verdict, decoded.value.value)))
      && (alone.Err? <==> !e.unfiltered && (decoded.Err? || (decoded.value.Some? && !AllMasked(e, decoded.value.value))))
  {
    hide SomeRow, SomeRowOf, AllMasked, MatchingRows;
    var decoded := e.decode(r.value);
    if decoded.Ok? && decoded.value.Some? {
      var batches := decoded.value.value;
      MatchingRowsExist(e, batches);
      if MatchingRows(e, batches).Ok? { MatchingIsSomeRow(e, verdict, batches); }
    }
  }

  predicate AllMasked(e: Engine, batches: seq<Batch>) {
    forall i | 0 <= i < |batches| :: e.mask(batches[i].schema, batches[i].rows).Ok?
  }

  lemma {:induction false} MatchingRowsExist(e: Engine, batches: seq<Batch>)
    ensures MatchingRows(e, batches).Ok? <==> AllMasked(e, batches)
  {
    if batches != [] {
      MatchingRowsExist(e, batches[1..]);
      if AllMasked(e, batches[1..]) && e.mask(batches[0].schema, batches[0].rows).Ok? {
        forall i | 0 <= i < |batches| ensures e.mask(batches[i].schema, batches[i].rows).Ok? {
          if i > 0 { assert batches[1..][i - 1] == batches[i]; }
        }
      }
    }
  }

  lemma MatchingIsSomeRow(e: Engine, verdict: (string, Row) -> bool, batches: seq<Batch>)
    requires Lawful(e, verdict) && MatchingRows(e, batches).Ok? && OneSchema(batches)
    ensures MatchingRows(e, batches).value > 0 <==> SomeRow(verdict, batches)
  {
    MatchingRowsMeansSomeRow(e, verdict, batches, SchemaKey(batches));
  }
}
