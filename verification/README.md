# Verified models of krabka-gateway

This project models the parts of krabka-gateway whose correctness is hardest to see by reading, and
proves what they promise. Every `.dfy` file is one module; `dafny verify dfyconfig.toml` checks them
together.

- **Explicit-acknowledgement subscriptions.** `AckFrontier` is the per-partition tracker: a frontier,
  the offsets delivered above it, and those already acknowledged. `Subscribe` is the loop around it as a
  state machine over polls, filtered records, client acknowledgements and commits, and `SubscribeLoop`
  is the same loop as mutable objects, each method proved to take exactly the state machine's step.
  `OwnershipPeriods` follows a partition from the moment a commit finds it not owned to the next such
  moment, with no assumption on what is owned when. Its results are over whole runs: which unanswered
  records a commit covers, as an if-and-only-if; that it covers none exactly when there is nothing to
  skip; that it covers none of its own period unless a late acknowledgement began the period, and none at
  all until a tracker is dropped; when an accepted acknowledgement is unknown to the session; and that the
  commits of a period strictly increase. `Dismissals` is the other half: what the stream keeps as
  acknowledged, which acknowledgements it therefore dismisses, and when the frontier and the commits of a
  period are exact, that is, as far on as the answers since the period began allow. `RunOutcomes` says of
  every iteration what it sends and why the stream stops, each as an if-and-only-if over the run's events,
  and what a tracker remembers as committed. `SubscribedPolls`
  starts from raw polls and the batched filter, `StreamPruning` pays for pruning by insertions over a run,
  and `Revocation` exhibits the runs in which a partition that comes back loses by it.
- **Batched filtering.** `BatchFilter` proves that grouping records by schema and filtering them in bulk
  gives the same verdicts, in poll order, as filtering each record by its own rows.
- **The filter language.** `QuoteScan` holds the quote-aware scanners, all proved against one definition
  of being inside a string (an odd number of apostrophes before the position). `FilterLang` is the
  compiler. `FilterConjunction` proves what its scanners see of joined texts, and `FilterRoundTrip`
  exactly when the gateway reads back the equality that the SDK printed, and any conjunction of
  comparisons, for arbitrary strings. `FilterGrammar` writes the language down apart from the compiler and
  proves which texts compile, to what, and which error the others get, in both builds.
- **Wire codecs.** `Envelope` (Connect envelope framing under arbitrary chunking), `Json` (the C++ SDK's
  recursive-descent parser and its printer), `Protobuf` (Base 128 varints, fields and headers).
  `JsonGrammar` and `ProtobufGrammar` write down the two languages, with white space, escapes and varints in
  any form, and prove that the readers accept exactly them and read what they mean.
- **Queues.** `QueueSession` is the gateway's outstanding-batch protocol under every interleaving of
  calls on one session. `ShareGroup` is a simple map-based meaning of a share group; `StubQueues` and
  `AdapterQueues` are the two in-memory mocks, both proved to refine it.
- **Smaller machines.** `SendWindow` (ordered bounded delivery), `SubscriptionReader` (coalesced reads
  over an async iterator) and `CloudEvents` (binary and structured modes).

`Wrappers`, `Records` and `Text` are shared definitions. Libraries and the outside world are parameters:
what a poll returned, what a broker answered, which partitions are owned, a row mask, a number parser,
the UTF-8, base64, JSON and protobuf decoders. Where a theorem needs a law of a library, the law is a
named predicate (`BatchFilter.Lawful`, `CloudEvents.Lawful`).

Four places where the code does less than one might expect are stated as they are in the code, each with a
run or an input that shows it and the exact condition. Three have one cause: when a commit finds a partition
not owned, the session drops its tracker, but the stream keeps its own maps.

- If the partition comes back, the next acknowledgement or poll seeds a fresh tracker above the records left
  unanswered, and a commit may cover them: a late acknowledgement does so, and so does a poll further on
  without any acknowledgement (`Revocation.LateAckLosesARecord`, `Revocation.LaterPollLosesARecord`). The
  condition is `OwnershipPeriods.CommitsPassExactly` with `SafeExactlyWhenNothingToSkip`.
- The stream may accept an acknowledgement of a record the new tracker does not know, and stop
  (`Revocation.AcceptedAckStopsTheStream`). The condition is `OwnershipPeriods.AcceptedAckFailsExactly`.
- The highest frontier reached before the drop stays, so a record at or below it that is polled again can
  never be acknowledged, and the frontier waits for it (`Revocation.RepolledAckIsDismissed`,
  `Revocation.RepolledFrontierIsNotExact`). The conditions are `Dismissals.DismissedExactly` and
  `Dismissals.FrontierIsExactUnlessDismissed`.
- As the tests of the batched path ask, an unfiltered subscription drops an Arrow record without rows there,
  while the record-at-a-time path delivers it (`BatchFilter.EmptyRecordIsFiltered`); on no other Arrow or
  fallback record do the two disagree (`BatchFilter.BatchedAgreesWithAlone`).

## Model

| member | source | states |
|---|---|---|
| AckFrontier.DrainedIsValid | crates/gateway/src/consume.rs:92-102 | draining keeps pending within delivered, at most 100,000 outstanding, the frontier within `i64`, and never moves the frontier back |
| AckFrontier.KeptIsUnique | crates/gateway/src/consume.rs:92-102 | what draining keeps is the only upper part of the delivered set whose removal leaves nothing acknowledged at its head |
| AckFrontier.DeliveryKeepsValid | crates/gateway/src/consume.rs:57-73 | recording a delivery keeps the tracker's invariant, refuses exactly at the cap and then changes nothing |
| AckFrontier.AckKeepsValid | crates/gateway/src/consume.rs:75-90 | an acknowledgement keeps the invariant, advances only, and succeeds exactly when the tracker is new, the offset is settled, or it is outstanding |
| AckFrontier.AdmitRefines | crates/gateway/src/consume.rs:57-73 | a delivery is the admission of an offset in a history of admitted and acknowledged offsets |
| AckFrontier.AcknowledgeRefines | crates/gateway/src/consume.rs:75-102 | an acknowledgement with its drain loop moves the tracker exactly as the history's definition of settled offsets moves |
| AckFrontier.RunRefinesAccount | crates/gateway/src/consume.rs:53-108 | after any operations the tracker is determined by which offsets were admitted and acknowledged |
| AckFrontier.FrontierIsExact | crates/gateway/src/consume.rs:75-102 | the frontier is the largest admitted offset with everything admitted at or below it acknowledged, else the baseline |
| AckFrontier.AcksClosedForm | crates/gateway/src/consume.rs:75-102 | acknowledging a list of registered offsets one by one equals acknowledging them all at once and draining once |
| AckFrontier.AckOrderDoesNotMatter | crates/gateway/src/consume.rs:75-102 | any two lists with the same registered offsets leave the same frontier, delivered and pending sets |
| AckFrontier.PartitionAckState.Deliver | crates/gateway/src/consume.rs:57-73 | the mutable tracker's delivery is the specified one |
| AckFrontier.PartitionAckState.Acknowledge | crates/gateway/src/consume.rs:75-90 | the mutable tracker's acknowledgement is the specified one, draining included |
| AckFrontier.PartitionAckState.Drain | crates/gateway/src/consume.rs:92-102 | the loop that pops acknowledged heads computes the specified split of the delivered set |
| Subscribe.RunKeeps | crates/gateway/src/streaming.rs:644-776 | at every loop head of every run the table is valid and the delivered map holds polled records only; until a tracker of the partition is dropped, the stream's maps and the session's tracker agree (after that, `Dismissals.AcknowledgedIsHighest` says what the stream's value is) |
| Subscribe.AcceptedAcksAreTracked | crates/gateway/src/streaming.rs:701-763 | until a tracker of its partition is dropped, an acknowledgement that `validate_ack` accepts never makes the session fail; one of a filtered record never does |
| Subscribe.CommitKeeps | crates/gateway/src/consume.rs:287-332 | a commit sends `frontier + 1` only for owned partitions whose frontier moved and fits, forgets partitions not owned, keeps progress, and remembers what it sent once it succeeded |
| Subscribe.CommitIsExact | crates/gateway/src/consume.rs:287-332 | a commit fails exactly when it sends something and the broker refuses; it sends for exactly the owned partitions with an uncommitted frontier that has a successor; a refused commit marks nothing committed |
| Subscribe.StepForward | crates/gateway/src/consume.rs:301-332 | an iteration that does not drop a partition never moves its frontier or commit back, and remembers a sent commit |
| OwnershipPeriods.TrackerFollowsPeriod | crates/gateway/src/streaming.rs:644-776 | in every run, whatever was owned when, a partition's tracker is exactly what was admitted and acknowledged since a commit last found it not owned |
| OwnershipPeriods.SentIsExact | crates/gateway/src/consume.rs:287-332 | every commit is one past the period's settled frontier and past the offset that seeded its tracker |
| OwnershipPeriods.CommitsPassExactly | crates/gateway/src/streaming.rs:644-776 | over every run with any ownership, a commit covers an unanswered polled record exactly when a late acknowledgement seeded the tracker at or above it, if it was polled in the period, or else when it was left by the drop and lies at or below the seed or something the period settled |
| OwnershipPeriods.SafeExactlyWhenNothingToSkip | crates/gateway/src/streaming.rs:644-776 | a commit covers no unanswered record if and only if no such leftover and no unanswered record below a late seed is there |
| OwnershipPeriods.CommitsCoverOnlyAnswered | crates/gateway/src/streaming.rs:644-776 | in every period that no late acknowledgement began, for every interleaving of ordered polls, filtered records and client acks, every record of the period below a committed offset was filtered out or acknowledged |
| OwnershipPeriods.NamedAcksAreNotLate | crates/gateway/src/streaming.rs:34-54 | a period in which every client acknowledgement names a record polled in it is not begun by a late acknowledgement |
| OwnershipPeriods.FirstPeriodIsSafe | crates/gateway/src/streaming.rs:644-776 | until a tracker of the partition is dropped, whenever it was assigned, every polled record below a committed offset was filtered out or acknowledged |
| OwnershipPeriods.OwnedOncePolledIsNeverForgotten | crates/gateway/src/consume.rs:301-307 | a partition owned from the first event that polls it never loses its tracker |
| OwnershipPeriods.AcceptedAckFailsExactly | crates/gateway/src/consume.rs:75-90 | in every run an accepted acknowledgement is unknown to the session exactly when the period has a tracker, the offset is above its frontier and was never admitted |
| OwnershipPeriods.CommitsIncrease | crates/gateway/src/consume.rs:287-331 | successive commits of one period strictly increase and stay within `i64` |
| Dismissals.AcknowledgedIsHighest | crates/gateway/src/streaming.rs:56-85 | over every run and any ownership, the value the stream keeps as acknowledged is the highest settled frontier that any acknowledgement of the partition reached, in any period |
| Dismissals.DismissedExactly | crates/gateway/src/streaming.rs:34-54 | an acknowledgement of an offset the period has not settled is dismissed, and changes nothing, if and only if an earlier period settled that offset or one above it |
| Dismissals.EmittedIsRemembered | crates/gateway/src/streaming.rs:34-85 | a record delivered in the run is, at every loop head, held for acknowledgement or at or below the value kept, so it is never refused as not delivered |
| Dismissals.DeliveredAckIsRecordedExactly | crates/gateway/src/streaming.rs:701-763 | an acknowledgement of a record delivered and polled in an ordered period never stops the stream as unknown or not delivered; while the record is unsettled it is recorded if and only if no earlier period settled it or one above it, and otherwise changes nothing |
| Dismissals.AnsweredIsAcked | crates/gateway/src/streaming.rs:644-776 | every offset filtered out or acknowledged since the period began is recorded, unless the period has settled it or an earlier one settled it or one above it |
| Dismissals.FrontierIsExactUnlessDismissed | crates/gateway/src/consume.rs:75-102 | in every ordered period no late acknowledgement began, the settled frontier is the largest polled offset with everything polled at or below it answered since the period began, else just below the seed, if and only if no acknowledgement of the record it waits for was dismissed |
| Dismissals.FirstFrontierIsExact | crates/gateway/src/consume.rs:75-102 | until a tracker of the partition is dropped the frontier is exact without condition |
| Dismissals.CommitIsExactUnlessDismissed | crates/gateway/src/consume.rs:287-332 | the same of what a commit sends: one past that largest offset, if and only if there was no such dismissal, and always until a tracker is dropped |
| RunOutcomes.CommittedIsLastSent | crates/gateway/src/consume.rs:326-330 | in every run a tracker's committed frontier is one below the offset last sent in its period and accepted by the broker, or, before there is one, just below the offset the tracker was made for |
| RunOutcomes.SentExactly | crates/gateway/src/consume.rs:287-332 | in every run an iteration sends an offset for a partition if and only if it acknowledged something, owns the partition, and has settled it past what it has committed; the offset is the settled frontier plus one |
| RunOutcomes.CommitFailsExactly | crates/gateway/src/streaming.rs:766-775 | the stream stops on a failed commit if and only if the iteration sent something and the broker refused it |
| RunOutcomes.DeliveredIsEmitted | crates/gateway/src/streaming.rs:34-85 | the stream's delivered map holds only records that went to the client |
| RunOutcomes.AckRejectedExactly | crates/gateway/src/streaming.rs:34-54 | the stream stops on an unknown acknowledgement if and only if its record never went to the client and nothing the stream has settled reaches it |
| RunOutcomes.TooManyUnackedExactly | crates/gateway/src/streaming.rs:724-734 | the stream stops for too many unacknowledged records if and only if the batch holds a new record of a partition that, with the records before it, has 100,000 outstanding |
| SubscribedPolls.FilteringKeepsOrder | crates/gateway/src/streaming.rs:246-286 | polls in offset order stay so through the filter stage |
| SubscribedPolls.PolledInOrderIsSafe | crates/gateway/src/streaming.rs:644-776 | commit safety stated from the raw polls and the filter stage's decisions on them |
| SubscribedPolls.PolledInOrderIsExact | crates/gateway/src/streaming.rs:644-776 | until a tracker is dropped, a commit is one past the largest polled offset with everything polled at or below it filtered out or acknowledged, stated from the raw polls |
| Revocation.LateAckLosesARecord | crates/gateway/src/consume.rs:301-313 | a run across a revocation in which a late acknowledgement commits past a record nobody answered |
| Revocation.LaterPollLosesARecord | crates/gateway/src/consume.rs:301-313 | a run across a revocation in which a poll further on does so, with no client acknowledgement |
| Revocation.AcceptedAckStopsTheStream | crates/gateway/src/streaming.rs:743-752 | a run across a revocation in which an acknowledgement that is accepted stops the stream as unknown to the session |
| Revocation.RepolledAckIsDismissed | crates/gateway/src/streaming.rs:34-54 | for every record: polled, acknowledged at a commit that loses the partition, and polled again, it is outstanding and each further acknowledgement changes nothing and sends nothing |
| Revocation.RepolledFrontierIsNotExact | crates/gateway/src/streaming.rs:34-85 | in that run the frontier waits for a record that has been acknowledged since it was polled |
| StreamPruning.PruneIsExact | crates/gateway/src/streaming.rs:56-85 | pruning removes exactly the partition's offsets at or below the frontier and inspects at most one more than it removes |
| StreamPruning.RunIsOperations | crates/gateway/src/streaming.rs:644-776 | in every run the stream's maps are what its insertions and prunings leave, and it inspects what they do |
| StreamPruning.PruningIsAmortised | crates/gateway/src/streaming.rs:56-85 | over every run of the loop, offsets inspected plus offsets still held are at most its insertions plus its advancing calls |
| SubscribeLoop.ConsumeSession.RecordDelivery | crates/gateway/src/consume.rs:233-259 | the session's delivery on its map of tracker objects is the table's delivery |
| SubscribeLoop.ConsumeSession.RecordAck | crates/gateway/src/consume.rs:261-279 | the session's acknowledgement on its map of tracker objects is the table's acknowledgement |
| SubscribeLoop.ConsumeSession.AckedFrontier | crates/gateway/src/consume.rs:281-285 | the frontier reported for a partition is the table's |
| SubscribeLoop.ConsumeSession.AckedOffsets | crates/gateway/src/consume.rs:287-299 | what would be committed is what the table says |
| SubscribeLoop.ConsumeSession.CommitAcked | crates/gateway/src/consume.rs:301-332 | forgetting revoked partitions, sending, and marking what was sent is the table's commit; after a refusal it fails with nothing marked (`Subscribe.CommitIsExact` says which is which) |
| SubscribeLoop.Subscription.MarkAcknowledged | crates/gateway/src/streaming.rs:56-85 | the pruning loop leaves the specified maps and inspects the specified number of offsets |
| SubscribeLoop.Subscription.RegisterAll | crates/gateway/src/streaming.rs:724-734 | the whole visible batch is registered before any acknowledgement, up to the first record over the cap |
| SubscribeLoop.Subscription.AckAndCommit | crates/gateway/src/streaming.rs:743-776 | acknowledging a list and committing once is the state machine's second half-step |
| SubscribeLoop.Subscription.OnPoll | crates/gateway/src/streaming.rs:681-776 | a poll takes the session and the stream's maps exactly where the state machine's poll does |
| SubscribeLoop.Subscription.OnAck | crates/gateway/src/streaming.rs:656-680 | a client acknowledgement takes them exactly where the state machine's acknowledgement does |
| BatchFilter.MaskSlice | crates/gateway/src/streaming.rs:427-449 | counting true mask values in a record's slice of the concatenated batch is positive exactly when one of its own rows satisfies the filter |
| BatchFilter.FilterArrowIpcGroup | crates/gateway/src/streaming.rs:397-440 | every record of a group is delivered exactly when one of its own rows satisfies the filter, in group order |
| BatchFilter.ArrowIpcRecordGroup.DrainFilteringInto | crates/gateway/src/streaming.rs:153-166 | draining decides the waiting Arrow records in order and empties the group |
| BatchFilter.FilterSchemaJsonGroup | crates/gateway/src/streaming.rs:295-343 | registry records of a group are decided by the group's mask, position by position |
| BatchFilter.SchemaJsonRecordGroup.DrainFilteringInto | crates/gateway/src/streaming.rs:181-195 | draining decides the waiting registry records in order and empties the group |
| BatchFilter.FilterPolledRecords | crates/gateway/src/streaming.rs:246-286 | on success there is one decision per record in poll order, whatever mix of kinds; Arrow verdicts depend on the record's own rows only, and registry groups are the maximal runs of one schema id |
| BatchFilter.DecidedExactly | crates/gateway/src/streaming.rs:246-293 | how a record is decided, from its value, its JSON and its schema: an Arrow value by its own rows, decoded JSON with a schema by the mask of the maximal run of that schema id, anything else by itself |
| BatchFilter.MatchingRowsMeansSomeRow | crates/gateway/src/filter.rs:331-354 | evaluating a record's batches one by one finds a match exactly when some row satisfies the filter |
| BatchFilter.DeliversAloneExactly | crates/gateway/src/filter.rs:283-354 | when the record-at-a-time filter delivers a record and when it fails |
| BatchFilter.BatchedAgreesWithAlone | crates/gateway/src/filter.rs:283-354 | batched and record-at-a-time filtering agree on a record if and only if it is not an Arrow record without rows under an unfiltered subscription |
| BatchFilter.EmptyRecordIsFiltered | crates/gateway/src/streaming.rs:246-286 | with lawful libraries that never fail and no filter, a record without rows is delivered alone and filtered out in a batch |
| Text.TrimIsExact | crates/gateway/src/filter.rs:148 | trimming takes off the Unicode white space at both ends, all of it and nothing else |
| Text.EqIgnoreCaseIsExact | crates/gateway/src/filter.rs:1367-1378 | comparing without case compares letter by letter, an ASCII letter with either case of it |
| Text.IdentifierCharsAreListed | crates/gateway/src/filter.rs:1399-1401 | identifier characters are the underscore, the 52 ASCII letters and the digits |
| QuoteScan.AfterQuote | crates/gateway/src/filter.rs:1196-1227 | stepping over an apostrophe, doubled or not, lands where parity says the string state is |
| QuoteScan.ContainsUnquotedWord | crates/gateway/src/filter.rs:1347-1378 | true exactly when a whole word equal to the keyword stands outside every string |
| QuoteScan.ContainsUnquotedChar | crates/gateway/src/filter.rs:1380-1397 | true exactly when the character stands outside every string |
| QuoteScan.ContainsUnquotedFieldPathSeparator | crates/gateway/src/filter.rs:1317-1345 | true exactly when a point that is not a decimal point stands outside every string |
| QuoteScan.ReferencesField | crates/gateway/src/filter.rs:794-835 | true exactly when the reserved field is named as a whole word outside every string |
| QuoteScan.FindFrom | crates/gateway/src/filter.rs:1229-1252 | the token found is the first one outside every string, or there is none |
| QuoteScan.FindUnquotedToken | crates/gateway/src/filter.rs:1229-1252 | the scanning loop finds that token and reports an unterminated string only when it finds none |
| QuoteScan.SplitAndClauses | crates/gateway/src/filter.rs:1196-1227 | the loop with its clause start and string flag computes the specified clauses |
| QuoteScan.SplitCutsExactly | crates/gateway/src/filter.rs:1196-1227 | clauses are cut at every unquoted whole-word AND and nowhere else |
| QuoteScan.CutIntoIsUnique | crates/gateway/src/filter.rs:1196-1227 | there is only one such cut of a text |
| QuoteScan.CutIntoRejoins | crates/gateway/src/filter.rs:1196-1227 | the clauses with the removed words between them rebuild the input |
| QuoteScan.ClausesAreWhole | crates/gateway/src/filter.rs:1196-1227 | no clause has an open string or an unquoted AND |
| QuoteScan.QuoteComplexFieldReferences | crates/gateway/src/filter.rs:740-792 | the rewrite quotes every unquoted whole-word reference to a listed field, the longest where several fit, doubling quotes, and copies everything else, strings included; an apostrophe in a referenced name starts no string |
| QuoteScan.StringsAreQuoted | crates/gateway/src/filter.rs:754-790 | the strings the rewrite sees are those of the text exactly when the names replaced so far hold an even number of apostrophes |
| QuoteScan.CutsAreUnique | crates/gateway/src/filter.rs:740-792 | there is only one such rewrite of a text |
| FilterLang.Unescape | crates/gateway/src/filter.rs:1276-1299 | the loop over a literal's inside undoubles apostrophes left to right |
| FilterLang.RejectExtraOperator | crates/gateway/src/filter.rs:1254-1263 | succeeds exactly when no string is left open and no operator stands outside a string |
| FilterLang.ParseComparison | crates/gateway/src/filter.rs:845-866 | a clause splits at the first unquoted occurrence of the first listed operator it holds, provided its literal holds no other |
| FilterLang.SplitDots | crates/gateway/src/filter.rs:889-922 | a path without a point is one segment and a path with one is at least two |
| FilterLang.ParsePredicate | crates/gateway/src/filter.rs:1174-1194 | a clause becomes one predicate or the first error in the parser's order |
| FilterLang.ParseLegacyPredicates | crates/gateway/src/filter.rs:1143-1149 | a filter becomes its clauses' predicates in order, or the first clause's error |
| FilterLang.SqlRequiresDataFusion | crates/gateway/src/filter.rs:1305-1315 | true exactly when a keyword, bracket or path separator stands outside every string |
| FilterLang.Compile | crates/gateway/src/filter.rs:147-186 | compiling in either build gives the specified filter or error, which `FilterGrammar.CompiledIsExact` characterises |
| FilterGrammar.CompiledIsExact | crates/gateway/src/filter.rs:147-186 | what every text compiles to: blank text to the unfiltered filter; the reserved marker to an error; text with an unquoted OR, IN, IS, LIKE, bracket or path point to an error without Arrow; comparisons joined by AND to their predicates; with Arrow, other text that needs the engine to itself without predicates; the rest to an unsupported-filter error |
| FilterGrammar.AcceptedExactly | crates/gateway/src/filter.rs:147-186 | which texts compile in each build |
| FilterGrammar.LegacyIsExact | crates/gateway/src/filter.rs:1143-1149 | a filter has legacy predicates if and only if taking its unquoted ANDs out leaves one comparison for each of them, in order |
| FilterGrammar.ClauseIsExact | crates/gateway/src/filter.rs:1174-1194 | a clause parses to a predicate if and only if it is an identifier, one of the six operators and a literal that denotes the value, ordered only if it is a string or a number |
| FilterGrammar.SplitReads | crates/gateway/src/filter.rs:845-866 | a field, an operator and an operand, written together with any blanks, split into just these, whatever the operand's strings hold |
| FilterGrammar.LiteralIsExact | crates/gateway/src/filter.rs:929-951 | a literal is read as a value if and only if it denotes it: a constant in any case, a quoted string, a 64-bit integer signed or not, or a finite float |
| FilterGrammar.NeedsEngineMeans | crates/gateway/src/filter.rs:1305-1345 | a text needs the DataFusion engine if and only if a spelling of one of four words, a bracket, or a point not between digits stands outside strings |
| FilterGrammar.RefusedAsUnsupported | crates/gateway/src/filter.rs:889-922 | a filter that needs no engine and is no list of comparisons is refused as unsupported in either build, dotted fields included |
| FilterGrammar.OutsideIsExact | crates/gateway/src/filter.rs:1196-1227 | a position is outside strings if and only if an even number of apostrophes precedes it and it is none |
| FilterGrammar.MentionsIsExact | crates/gateway/src/filter.rs:794-835 | a word is mentioned if and only if it stands whole between two texts, the first with its strings closed |
| FilterGrammar.CutIsExact | crates/gateway/src/filter.rs:1196-1227 | a text is cut if and only if AND, in any spelling, stands there so |
| FilterGrammar.UnescapedParts | crates/gateway/src/filter.rs:1276-1299 | undoubling acts on each part of a text alone where no run of apostrophes crosses the seam |
| FilterGrammar.UnescapedRun | crates/gateway/src/filter.rs:1276-1299 | a run of apostrophes becomes half as many, rounded up |
| FilterRoundTrip.UnescapeDoubled | crates/app-sdk/src/messaging.rs:390-392 | undoubling apostrophes inverts the SDK's doubling, for every string |
| FilterRoundTrip.StringLiteralHidesEverything | crates/app-sdk/src/messaging.rs:390-392 | nothing inside a printed string literal is outside a string, whatever it holds |
| FilterRoundTrip.LiteralRoundTrip | crates/app-sdk/src/messaging.rs:390-400 | every printed string, boolean, null, 64-bit integer or finite float parses back to its own value |
| FilterRoundTrip.PrintsExactly | crates/app-sdk/src/messaging.rs:319-335 | a filter prints if and only if its path is `$.` and identifiers joined by points and its value is neither an array nor an object; it prints the field and a literal that denotes the value |
| FilterRoundTrip.OperatorIsRead | crates/gateway/src/filter.rs:845-866 | each of the six operators is read as itself, two-character ones never as their one-character parts, whatever operators the literal's string holds |
| FilterRoundTrip.ComparisonRoundTrip | crates/gateway/src/filter.rs:1174-1194 | any comparison of a field with a printed value is read back as that field, operator and value, except that ordering a boolean or null is refused |
| FilterConjunction.MentionsJoined | crates/gateway/src/filter.rs:1347-1378 | the unquoted whole words of two texts and a separator are those of each, when the first closes its strings |
| FilterConjunction.NeedsDataFusionJoined | crates/gateway/src/filter.rs:1305-1345 | only a part can make a joined text need the DataFusion engine |
| FilterConjunction.ConjunctionParses | crates/gateway/src/filter.rs:1143-1149 | any clauses without an AND of their own, joined by AND, mean what they mean one by one, in order |
| FilterConjunction.AndConjunctIsRefused | crates/gateway/src/filter.rs:1174-1227 | a conjunction with a conjunct that starts with AND is refused, wherever it stands |
| FilterRoundTrip.ComparisonMentions | crates/gateway/src/filter.rs:1305-1397 | a printed comparison holds an unquoted keyword or the reserved marker exactly when its field is that word |
| FilterRoundTrip.ConjunctionRoundTrips | crates/gateway/src/filter.rs:147-186 | comparisons joined by AND compile to exactly their predicates in order if and only if no field is the reserved marker, AND in any case, or, without the Arrow build, OR, IN, IS or LIKE |
| FilterRoundTrip.DottedFieldIsLost | crates/gateway/src/filter.rs:889-922 | a dotted path never comes back as the predicate it was printed from |
| FilterRoundTrip.FilterRoundTrips | crates/app-sdk/src/messaging.rs:319-409 | compiling the SDK's text gives exactly one equality with the same field and value if and only if the field is one segment, not the reserved marker, not AND in any case, and, without the Arrow build, not OR, IN, IS or LIKE |
| Envelope.MessageRoundTrip | crates/app-sdk/src/connect_client.rs:71-102 | decoding an encoded message returns it and its length, whatever follows |
| Envelope.CutFrameWaits | crates/app-sdk/src/connect_client.rs:71-83 | a frame that has not wholly arrived is never decoded, nor an error |
| Envelope.ReadStreamingResponse | crates/app-sdk/src/connect_client.rs:273-325 | for every split of a body into chunks, with anything between them and a failure anywhere, the receiver sees what the joined bytes mean |
| Envelope.DecodeAvailable | crates/app-sdk/src/connect_client.rs:292-318 | the inner loop sends every complete frame and leaves exactly what is not one |
| Envelope.CutStream | crates/app-sdk/src/connect_client.rs:273-325 | a stream of messages cut anywhere gives the complete ones in order, then exactly one partial-frame error unless the cut is between frames |
| Envelope.WholeStream | crates/app-sdk/src/connect_client.rs:273-325 | an uncut stream, however chunked, gives every message in order and nothing else |
| Envelope.EndedStream | crates/app-sdk/src/connect_client.rs:311-316 | an end-of-stream frame gives its error if it has one and hides everything after it |
| Envelope.BadFrameEndsStream | crates/app-sdk/src/connect_client.rs:84-101 | after any messages, a complete frame whose flags are neither 0 nor 2 gives its own error, compressed when the flags are odd, and hides everything after it, under any chunking |
| Envelope.FailedStream | crates/app-sdk/src/connect_client.rs:273-325 | a transport failure gives the messages that were complete and then itself, wherever it cuts the next frame |
| Json.EmplaceKeepsOrder | sdks/cpp/src/json.cc:41 | an object stays in strictly increasing key order |
| Json.EmplaceKeepsFirst | sdks/cpp/src/json.cc:41 | a repeated key keeps its first value and touches no other |
| Json.Parser.ParseString | sdks/cpp/src/json.cc:56-74 | the loop over a string and its escapes reads the specified string or fails where it does |
| Json.Parser.ParseNumber | sdks/cpp/src/json.cc:75-88 | the scanned view and its conversion are the specified number |
| Json.Parser.ParseArray | sdks/cpp/src/json.cc:46-55 | the array loop reads the specified array and has moved forward |
| Json.Parser.ParseObject | sdks/cpp/src/json.cc:32-45 | the object loop reads the specified object and has moved forward |
| Json.Parser.ParseValue | sdks/cpp/src/json.cc:13-23 | a value is read as specified and every success consumes input, so parsing ends on every text |
| Json.Parse | sdks/cpp/src/json.cc:128 | parsing a text gives the specified document or an error, which `JsonGrammar.DocumentIsExact` characterises |
| Json.AppendValue | sdks/cpp/src/json.cc:103-125 | the recursive printer appends the specified text |
| Json.AppendEscaped | sdks/cpp/src/json.cc:91-101 | the escaping loop appends the specified string |
| Json.StringRoundTrip | sdks/cpp/src/json.cc:56-101 | every string reads back from its escaped text, whatever follows |
| Json.ValueRoundTrip | sdks/cpp/src/json.cc:13-125 | every nested value without numbers reads back from its text, whatever follows it |
| Json.DocumentRoundTrip | sdks/cpp/src/json.cc:128-129 | parsing the text of a value without numbers gives the value |
| Json.ParsedIsWellFormed | sdks/cpp/src/json.cc:32-45 | every parsed object, at any depth, has ordered and unique keys |
| Json.ParsedReparses | sdks/cpp/src/json.cc:128-129 | whatever parses without numbers prints to a text that parses to the same value |
| Json.NumberReadsBack | sdks/cpp/src/json.cc:75-88 | a printed number reads back if and only if its text has no exponent and the library's conversions agree on it |
| Json.DocumentReadsBackExactly | sdks/cpp/src/json.cc:13-129 | a document of any depth reads back from its text if and only if every number in it prints without an exponent and converts back |
| JsonGrammar.DocumentIsExact | sdks/cpp/src/json.cc:13-89 | a text parses to a value if and only if it is a legal layout of it: the six white-space characters around any token, each string character plain or in one of the eight escapes, a numeral of sign, digits and point, a repeated key keeping its first value |
| JsonGrammar.LayoutDoesNotMatter | sdks/cpp/src/json.cc:30 | white space before or after any token changes nothing, so a printed value without numbers reads back however it is laid out |
| JsonGrammar.StringIsRead | sdks/cpp/src/json.cc:56-74 | every spelling of a string, the escapes that are never printed included, reads as the characters it spells |
| JsonGrammar.PiecesOf | sdks/cpp/src/json.cc:56-74 | every string that is read is such a spelling |
| JsonGrammar.PrintedIsBare | sdks/cpp/src/json.cc:91-125 | what is printed of a value without numbers is a legal layout of it with nothing between its tokens and no character escaped but the quote, the backslash, line feed, carriage return and tab |
| Protobuf.AppendVarint | sdks/cpp/src/transport_nghttp2.cc:107-113 | the loop appends the groups of seven bits, low first |
| Protobuf.VarintRoundTrip | sdks/cpp/src/transport_nghttp2.cc:107-145 | reading an appended varint returns every 64-bit value and takes exactly its one to ten bytes |
| Protobuf.VarintIsAWord | sdks/cpp/src/transport_nghttp2.cc:136-145 | whatever the bytes, a varint that reads is a 64-bit value |
| Protobuf.TopGroup | sdks/cpp/src/transport_nghttp2.cc:138-142 | only one bit of a tenth byte is kept |
| Protobuf.FieldReader.ReadVarint | sdks/cpp/src/transport_nghttp2.cc:136-145 | the loop reads the specified value, or fails as truncated or too long, and moves past it |
| Protobuf.FieldReader.ReadLengthDelimited | sdks/cpp/src/transport_nghttp2.cc:147-153 | the bytes read are the announced ones, or the field is truncated |
| Protobuf.FieldReader.Skip | sdks/cpp/src/transport_nghttp2.cc:155-165 | skipping moves past the field or refuses its wire type |
| Protobuf.DecodeHeaders | sdks/cpp/src/transport_nghttp2.cc:468-490 | the field loop gives the specified headers or the first error |
| Protobuf.HeaderRoundTrip | sdks/cpp/src/transport_nghttp2.cc:468-490 | decoding an encoded header gives it back when its name is not empty, and nothing otherwise, with absent and empty values kept apart |
| Protobuf.UnknownFieldsAreSkipped | sdks/cpp/src/transport_nghttp2.cc:486 | a header message means the same with any integer field or unknown bytes field in front |
| ProtobufGrammar.VarintIsExact | sdks/cpp/src/transport_nghttp2.cc:136-145 | a varint is read as a value if and only if up to ten bytes, in the shortest form or not, come first and keep that value in 64 bits |
| ProtobufGrammar.VarintFailsExactly | sdks/cpp/src/transport_nghttp2.cc:136-145 | a varint is truncated if and only if fewer than ten bytes are left and all go on, and too long if and only if ten go on |
| ProtobufGrammar.HeadersAreExact | sdks/cpp/src/transport_nghttp2.cc:468-490 | bytes are read as headers if and only if they are legal fields one after another, in any form of their varints, whose last name, if not empty, and last value make up the one header |
| ProtobufGrammar.FieldFailsExactly | sdks/cpp/src/transport_nghttp2.cc:147-165 | a field whose key reads is refused for its wire type, or truncated, exactly when it has another type or announces more bytes than there are |
| QueueSession.RecordedExactly | crates/gateway/src/queue.rs:64-79 | a batch is recorded whole exactly when its distinct coordinates fit; otherwise the tracker is left full with part of it |
| QueueSession.QueueAcquisitions.RecordBatch | crates/gateway/src/queue.rs:64-79 | refuses while a batch is outstanding, and otherwise succeeds exactly when the distinct coordinates fit |
| QueueSession.AnswerEntries | crates/gateway/src/queue.rs:607-683 | the entry loops of acknowledge and renew leave the specified tracker; entry `i` reports success if and only if its coordinate was held at its turn, it was well typed or a renewal, and the broker answered without error; it carries an error if and only if the broker answered with it or its type is missing; it is not acquired if and only if its coordinate was not held |
| QueueSession.SuccessIsRelease | crates/gateway/src/queue.rs:616-643 | a disposition reports success if and only if it released its coordinate and not by code 121 |
| QueueSession.DispositionsReleaseExactly | crates/gateway/src/queue.rs:616-643 | a coordinate is still tracked after an acknowledge call exactly when no well-typed entry for it succeeded or got code 121 |
| QueueSession.RenewReleasesNothing | crates/gateway/src/queue.rs:664-680 | renewing never releases a coordinate, whatever the broker answers |
| QueueSession.RunKeeps | crates/gateway/src/queue.rs:97-126 | in every interleaving of acquire, acknowledge, renew and abandoned calls, the tracked set stays within the limit and the history of batches and releases is legal |
| QueueSession.BatchIsRecordedWhole | crates/gateway/src/queue.rs:112-125 | after the length check, recording the batch cannot fail |
| QueueSession.PollStartsEmpty | crates/gateway/src/queue.rs:103-111 | a backend poll starts only when nothing is tracked |
| QueueSession.PollsAreAlone | crates/gateway/src/queue.rs:97-126 | no other call holds the consumer while a batch is polled and recorded |
| QueueSession.AcquireEndsExactly | crates/gateway/src/queue.rs:97-126 | an acquire ends as outstanding, with a backend error, over the limit, or with its batch, each exactly when the tracker or its poll says so |
| QueueSession.LeavesOnlyWhenReleased | crates/gateway/src/queue.rs:576-588 | a coordinate leaves only by its own disposition that succeeded or got code 121 |
| QueueSession.BrokerIsAskedAboutHeld | crates/gateway/src/queue.rs:623-635 | the broker is only ever asked about coordinates the session holds |
| QueueSession.BatchIsAccountedFor | crates/gateway/src/queue.rs:52-57 | what is tracked and what was released since make up the last batch, each coordinate once |
| QueueSession.FinishedCallSettledAll | crates/gateway/src/queue.rs:607-683 | in every interleaving, a call that finishes has left the tracked set exactly as its entry loop does when it runs alone on the same verdicts, and each of its results says what the broker answered and whether the coordinate was held at its turn, in the same words |
| ShareGroup.CoordinatesAreUnique | crates/app-sdk/src/messaging.rs:176-189 | no two published messages share a coordinate |
| ShareGroup.HowDeliveriesChange | crates/app-sdk/src/stubs.rs:183-282 | any operation leaves a delivery alone, takes it when available and counts it, or answers it for the session that holds it |
| ShareGroup.RunKeeps | crates/app-sdk/src/stubs.rs:183-323 | in every run offsets number each topic's messages and nothing is recorded of unpublished ones; until a saturating session counter stops, new session names are free and holders are sessions of the same group and topic |
| ShareGroup.ChosenAreOffered | crates/app-sdk/src/stubs.rs:205-212 | only available messages of the topic are handed out |
| ShareGroup.ChosenMissNone | crates/app-sdk/src/stubs.rs:205-212 | below the limit no available message of the topic is passed over |
| ShareGroup.AcquireIsExact | crates/app-sdk/src/stubs.rs:183-229 | when an acquire succeeds, and that it hands out the first available messages of the topic, as many as asked for within 1 and 500, each counted once more; a refused one changes nothing |
| ShareGroup.SettleAllIsExact | crates/app-sdk/src/stubs.rs:254-282 | a held message is accepted, available again or rejected according to the first entry that names it, and every other message is left alone |
| ShareGroup.AnswersAreExact | crates/app-sdk/src/stubs.rs:254-282 | an entry is answered without error if and only if the session held the message and no earlier entry names it |
| ShareGroup.ReleasedIsOffered | crates/app-sdk/src/stubs.rs:205-212 | a released message is among those offered to its group again |
| ShareGroup.RenewalsAreExact | crates/app-sdk/src/stubs.rs:305-321 | a renewal says of each entry whether the session holds its message |
| ShareGroup.PublishIsExact | crates/app-sdk/src/messaging.rs:158-195 | publishing fails for the empty and the missing topic only, and otherwise takes the first free offset of its topic |
| ShareGroup.TerminalIsAbsorbing | crates/app-sdk/src/stubs.rs:271-275 | accepted and rejected messages stay so in every run |
| ShareGroup.LeaseLasts | crates/app-sdk/src/stubs.rs:254-282 | until its holder answers, a held message is neither taken, answered nor counted by anyone |
| ShareGroup.GroupsAreIndependent | crates/app-sdk/src/stubs.rs:183-323 | a run that acts on other groups only changes nothing in a group |
| ShareGroup.SessionsGrow | crates/app-sdk/src/stubs.rs:564-571 | until the session counter stops, sessions are never lost, changed or replaced by a later one |
| ShareGroup.NewSessionKeepsHolders | crates/sdk-conformance/src/mock_adapter.rs:430-434 | a new session, even under a repeated name, leaves every holder a session of its group and topic exactly when what is held under that name is of the new session's group and topic |
| StubQueues.MockState.PublishMock | crates/app-sdk/src/messaging.rs:158-195 | publishing to the list is the map's publishing, errors included |
| StubQueues.MockState.SessionId | crates/app-sdk/src/stubs.rs:534-572 | finding or opening a session in the list is the map's |
| StubQueues.MockState.StateMut | crates/app-sdk/src/stubs.rs:586-606 | making a missing entry changes what no lookup says |
| StubQueues.MockState.AcquireMock | crates/app-sdk/src/stubs.rs:183-229 | acquiring from the list of lazy entries is the map's acquiring, with the same messages and counts |
| StubQueues.MockState.AcknowledgeMock | crates/app-sdk/src/stubs.rs:231-282 | answering entries in the list is the map's answering, entry by entry |
| StubQueues.MockState.RenewMock | crates/app-sdk/src/stubs.rs:284-322 | renewal says of each entry whether the session holds it |
| AdapterQueues.IdsAreUnique | crates/sdk-conformance/src/mock_adapter.rs:543-545 | message ids tell partition-zero messages apart, whatever colons their topics hold |
| AdapterQueues.IdReachesMessage | crates/sdk-conformance/src/mock_adapter.rs:482-496 | an entry with a message's id reaches that message |
| AdapterQueues.MockAdapter.PublishMessage | crates/sdk-conformance/src/mock_adapter.rs:217-245 | publishing to the stored messages is the map's publishing |
| AdapterQueues.MockAdapter.QueueAcquire | crates/sdk-conformance/src/mock_adapter.rs:280-380 | the single pass over per-message maps is the map's acquiring, with the same messages and counts |
| AdapterQueues.MockAdapter.QueueAcknowledge | crates/sdk-conformance/src/mock_adapter.rs:382-456 | answering entries by message id is the map's answering, entry by entry |
| AdapterQueues.MockAdapter.QueueRenew | crates/sdk-conformance/src/mock_adapter.rs:406-480 | renewal by message id says of each entry whether the session holds it |
| SendWindow.Window.Push | crates/gateway/src/handlers.rs:285-290 | a pushed delivery comes after all earlier ones and the window is below capacity again |
| SendWindow.Window.Drain | crates/gateway/src/handlers.rs:292-298 | draining moves everything pending to the results in order |
| SendWindow.SendAll | crates/gateway/src/handlers.rs:209-267 | there is one result per record, in input order, each its own record's |
| SendWindow.RunKeeps | crates/gateway/src/handlers.rs:209-299 | in every order of completions the pending slots and the results together are the records taken so far |
| SendWindow.ResultsMatchRecords | crates/gateway/src/handlers.rs:209-267 | however deliveries complete, result `i` is record `i`'s own outcome and the counts match |
| SendWindow.WindowIsBounded | crates/gateway/src/handlers.rs:231-237 | at most 64 deliveries are pending, and a keyed record is produced only when none are and every earlier record is answered |
| SendWindow.ProducerSeesInputOrder | crates/gateway/src/handlers.rs:238-262 | the producer is given the permitted records in input order, each once |
| SendWindow.NeverStuck | crates/gateway/src/handlers.rs:209-299 | in every reachable state that is not the last, some event changes the state |
| SendWindow.ChangesAreBounded | crates/gateway/src/handlers.rs:209-299 | in every interleaving at most four events a record and three more change the state |
| SendWindow.CanFinish | crates/gateway/src/handlers.rs:209-299 | from every state the invariant allows, some events finish the send, no more than there is left to do |
| SubscriptionReader.RunKeeps | sdks/ts/src/subscription-reader.ts:10-80 | in every interleaving at most one `next()` is outstanding, pending and buffered are never both set, and of all results the iterator resolves none is lost before closing and at most one by it, a result that resolves afterwards included |
| SubscriptionReader.ConsumedIsAPrefix | sdks/ts/src/subscription-reader.ts:35-40 | consumed results are an in-order prefix of the iterator's results, at most one behind |
| SubscriptionReader.ResolvedIsBuffered | sdks/ts/src/subscription-reader.ts:60-73 | while the reader is open the settling call is the pending one, so its result is always buffered |
| SubscriptionReader.BufferedStays | sdks/ts/src/subscription-reader.ts:10-20 | a buffered result is what every read gives until it is consumed or the reader closed |
| SubscriptionReader.ClosedStays | sdks/ts/src/subscription-reader.ts:42-51 | after closing every read is done, no call is started, and a read still waiting ends as done |
| SubscriptionReader.SettledExactly | sdks/ts/src/subscription-reader.ts:21-30 | from the events of any run: a read's promise gave a message if and only if its call resolved with it while the reader was open, failed if and only if it was rejected while open, and was done if and only if it settled after closing |
| SubscriptionReader.ReadsGiveWhatArrived | sdks/ts/src/subscription-reader.ts:60-73 | while the reader is open the results the reads gave, in the order of the calls, are exactly those that arrived |
| SubscriptionReader.ReadsExactly | sdks/ts/src/subscription-reader.ts:10-33 | when a read starts a call, and when it gives the buffered result, the outstanding promise or the closed result, from what arrived and was consumed |
| SubscriptionReader.ConsumesExactly | sdks/ts/src/subscription-reader.ts:35-40 | consuming takes a result if and only if the reader is open and it is the one not consumed yet |
| SubscriptionReader.Reader.ReadNext | sdks/ts/src/subscription-reader.ts:10-33 | the object's read is the machine's read |
| SubscriptionReader.Reader.ConsumeMessage | sdks/ts/src/subscription-reader.ts:35-40 | the object's consume is the machine's |
| SubscriptionReader.Reader.CloseReader | sdks/ts/src/subscription-reader.ts:42-51 | the object's close is the machine's |
| SubscriptionReader.Reader.BufferMessage | sdks/ts/src/subscription-reader.ts:60-73 | resolving a call is the machine's, and settles the read's promise as it says |
| SubscriptionReader.Reader.Rejected | sdks/ts/src/subscription-reader.ts:23-29 | rejecting a call is the machine's, and settles the read's promise as it says |
| CloudEvents.NamesRoundTrip | crates/gateway/src/ce_translate.rs:199-245 | a header name that is not reserved comes back from its attribute name |
| CloudEvents.StructuredFromBinary | crates/gateway/src/ce_translate.rs:186-225 | the header loop collects the specified attributes, last one winning, or the first non-UTF-8 header's error, and then adds the data |
| CloudEvents.FirstMissing | crates/gateway/src/ce_translate.rs:166-183 | no required attribute is missing exactly when each is a non-empty text |
| CloudEvents.BinaryFromStructured | crates/gateway/src/ce_translate.rs:228-263 | the attribute loop writes the specified headers, in the map's order, or the first error |
| CloudEvents.ValidateBinaryRequired | crates/gateway/src/ce_translate.rs:137-163 | the validation loops accept exactly the headers the specification accepts, with the first error otherwise |
| CloudEvents.StructuredIsValid | crates/gateway/src/ce_translate.rs:137-225 | the structured form of a valid binary event passes structured validation |
| CloudEvents.HeadersSurvive | crates/gateway/src/ce_translate.rs:186-246 | every carried header comes back, as often as it was there, and nothing else does |
| CloudEvents.DataSurvives | crates/gateway/src/ce_translate.rs:210-260 | data comes back byte for byte, or as the same JSON value when it was carried as JSON |
| CloudEvents.JsonMediaTypesAre | crates/gateway/src/ce_translate.rs:265-277 | a media type counts as JSON if and only if what stands before its parameters, blanks aside and in any case, is `application/json` or ends in `+json` |
| CloudEvents.CarriedAsJsonExactly | crates/gateway/src/ce_translate.rs:206-222 | the value is carried as `data` if and only if the last content type says JSON and the value parses, and in `data_base64` otherwise |
| CloudEvents.UnreadableExactly | crates/gateway/src/ce_translate.rs:192-199 | a record has a structured form if and only if every header value is UTF-8, attribute or not; the first that is not is the error |
| CloudEvents.HeadersFailExactly | crates/gateway/src/ce_translate.rs:236-240 | attributes become headers if and only if all are scalar; the first that is not is the error |
| CloudEvents.HeadersAreWritten | crates/gateway/src/ce_translate.rs:279-288 | each attribute is written as its own text, booleans as true and false and numbers as their digits, and nothing else is |
| CloudEvents.StructuredValidityIsExact | crates/gateway/src/ce_translate.rs:166-183 | what structured validation asks for and which error comes first |
| CloudEvents.BinaryValidityIsExact | crates/gateway/src/ce_translate.rs:137-163 | what binary validation asks for |
| CloudEvents.DataIsExact | crates/gateway/src/ce_translate.rs:248-260 | what a structured event's data decodes to, and when it fails |
| CloudEvents.BinaryIsExact | crates/gateway/src/ce_translate.rs:228-263 | a structured event has a binary form if and only if it is valid, its attributes are scalar and its data decodes |
| CloudEvents.ModesRoundTrip | crates/gateway/src/ce_translate.rs:137-263 | a valid binary event comes back with the same multiset of headers if and only if no name is repeated and none is `ce_data`, `ce_data_base64` or `ce_datacontenttype`, and then with its data |

## Left out

- QuoteScan.QuoteComplexFieldReferences: takes the complex field names as the source has filtered and sorted them, in any order that tries no name before a longer one starting with it.
- FilterRoundTrip.FilterRoundTrips: a floating-point value is its printed text, which the gateway's float parser is assumed to accept as finite; the same for `ConjunctionRoundTrips`.
- Json.DocumentRoundTrip: excludes numbers, which print at default stream precision; `DocumentReadsBackExactly` says when they read back, and takes a double for a real that prints as a finite one does.
- Envelope.ReadStreamingResponse: does not model a receiver that goes away while the reader is sending.
- SubscribeLoop.Subscription.OnPoll: the poll itself, its decoding and its filtering are the input; auto-commit subscriptions are not modelled.
- BatchFilter.FilterSchemaJsonGroup: the verdicts of a registry group are the group mask's, since the group's row schema is inferred from all its rows.
- Kafka clients, brokers, HTTP, TLS, sockets and process spawning: their answers are inputs.
- DataFusion, Arrow IPC decoding and the JSON-to-Arrow bridge: unseen libraries behind `BatchFilter.Engine`.
- Evaluating compiled predicates on rows, and mixed integer and float comparison, which is not a total order.
- Error message texts, metrics, health, logging and error-code tables.
- The queue session table: session expiry, capacity permits, principals and authorization.
- HTTP header translation, media-type detection and batch mode of CloudEvents: one-branch mappings.
- The request-body chunk reader, record and queue message codecs of the C++ transport: easy members beside the header codec.
- Deduplication, forwarding, membership, outbound webhooks and configuration: their core is foreign code or single checks.
- The Go and C++ mock queues: the same state machine as the two mocks modelled here.
