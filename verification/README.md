# A verified model of the VoltNueronGrid core

This project models the parts of the VoltNueronGrid database where state, order or encoding decide
whether data survives, and proves what those parts promise. Every claim is about all inputs, all runs
or all interleavings of the model. `dafny verify dfyconfig.toml` checks the whole project.

- **Audit** — the append-only audit sink and its FNV-1a hash chain (section 2 of draft-eastlake-fnv).
  Hashing is modelled down to exclusive or and wrapping multiplication on 64-bit words, so what
  tampering is caught follows from the arithmetic and not from an assumption about the hash.
- **Escaping, Wal, EventCodec, EventBus** — the write-ahead log file as text, the tab-separated event
  record inside it, and the event bus transport that rebuilds itself from the log on restart.
- **CursorStore, Delivery** — replay cursors kept in memory or on a log, and the protocol of replaying
  a stream and acknowledging it.
- **Tokenizer, TokenizerRoundTrip, TokenizerCompose, TokenizerGrammar** — the SQL scanner, its printer,
  how they undo each other, and what is read from texts written down directly. The keyword list and the Unicode letters and digits are a parameter; a lemma covers the
  keywords of the source.
- **Cache, CacheRuns, CacheFreshness, CacheUse, CacheBreaker, CacheManager** — a cache partition with deadlines,
  least-recently-used eviction and a circuit breaker, over whole runs, and snapshot and restore.
- **Controller** — the adaptive storage controller: threads interleaving at every counter update, lock
  and load.
- **Like, Predicate, ThreeValued, Readings, ReadOnce, Projection, Select** — the WHERE evaluator against
  the three-valued logic of SQL-92 (ISO/IEC 9075:1992, sections 8.2 to 8.5, 8.7 and 8.12), and the row
  path of SELECT.
- **Columnar** — rows to a batch of columns and back.
- **ChunkedLoader** — chunked and parallel ingest against a sequential filter.
- **Wrappers, Collections, Text** — shared values and the standard library's text operations.

Clock readings, disk outcomes, task order, hash map order, floating point parsing and printing, and the
row scan are parameters or free choices.

## Findings

Where the code and its documentation or intention differ, the model follows the code and the difference
is proved.

- The line reader of the log drops a carriage return in front of the newline. An event whose last
  attribute value ends in one comes back changed after a restart (`EventBus.RestartLosesCarriageReturn`);
  `EventBus.CrashRecovery` gives the exact condition.
- The audit chain's comment says that mutating any field breaks the chain. The kind and the timestamp
  are not hashed, and the separator is not escaped (`Audit.UncoveredFieldsAreInvisible`,
  `Audit.ShiftedBoundaryIsInvisible`); `Audit.ReplacedEventVerdict` gives the exact condition.
  Cutting off the end of a log is not reported either (`Audit.TruncationIsInvisible`).
- Restoring a cache drops an entry whose deadline is the moment of the restore, although a read at that
  moment would still return it (`CacheManager.RestoredReads`).
- Overwriting a live key can evict another live entry although no room is needed.
  `CacheRuns.OverwriteMayDisplace` and `CacheRuns.OverwriteMustDisplace` say exactly when it can and when
  it must. Eviction is least recently used whatever the eviction policy says, and a maximum of 0 acts
  as 1.
- A metrics snapshot can show more no-change decisions than decisions, because the counters are loaded
  one after the other (`Controller.SnapshotMayShowMoreNoChanges`), although the counters themselves never
  stand so. `Controller.SnapshotFitsExactlyWhen` gives the exact condition.
- Acknowledging an older, overlapping batch is accepted, takes its events twice and moves the checkpoint
  back (`Delivery.OlderBatchMovesBack`). `Delivery.InOrderExactlyWhen` gives the exact condition for
  in-order delivery.
- An expression the evaluator does not compute, such as a sum, is null on every row, so `a + 1 = 2` drops
  the row with a = 1 (`Readings.SumIsDropped`, `Readings.UncomputedIsNull`).
- A stored text that looks like a number or a boolean is read as one, so a text such as 007 is not found
  by comparing with it (`Readings.LeadingZerosAreLost`). `Readings.StoredTextIsFound` gives the exact
  condition. What is proved against SQL is therefore stated for every reading of values that the
  evaluator shares on the rows in question; for computed expressions only the columns decide that
  (`Readings.ColumnsDecide`).
- A comparison with a null is false, so under NOT it is true: the row is kept although SQL's answer is
  unknown. `ReadOnce.ExactIffUpright` gives the exact condition for conditions whose atoms read distinct
  columns. A null is matched by LIKE as the empty text (`ThreeValued.LikeExactlyWhen`).
- Two values of different kinds compare by their texts, except an integer with a float, which compare as
  floats. Among integers, texts and booleans the order has cycles exactly for two integers with a text
  (`Predicate.ChainsExactlyWhen`). Among floats and the integers of a range it is transitive exactly if
  the conversion to floats is strictly increasing there (`Predicate.NumbersChainExactlyWhen`): it is up to
  2^53 and not beyond (`Predicate.ExactIntegersChain`, `Predicate.RoundedNeighboursDoNotChain`). NaN
  equals every number (`Predicate.NaNEqualsEveryNumber`). Floats meet texts by what they print and then
  cycle as integers do (`Predicate.FloatsAndTextCycle`).
- The printer does not double quotes inside a literal (`TokenizerCompose.SingleTokenRoundTrip`). A block
  comment that is not closed leaves its last character behind, to be scanned on its own
  (`TokenizerCompose.UnclosedComment`). The three-character symbol in the scanner's two-character list
  can never match.
- A key column name used by a data column does no harm to the columnar round trip itself
  (`Columnar.RoundTrip` has no condition on names).
- With a task limit of 0 the chunked loader reports no task dispatched and still every chunk's outcome.

## Model

| member | source | states |
|---|---|---|
| Audit.XorInvolution | crates/voltnuerongrid-audit/src/lib.rs:43 | xor with the same byte undoes itself, so the mixing step loses nothing |
| Audit.XorIsBitwise | crates/voltnuerongrid-audit/src/lib.rs:43 | every bit of the exclusive or is the sum of the operands' bits modulo 2 |
| Audit.MultiplyInjective | crates/voltnuerongrid-audit/src/lib.rs:39-44 | the wrapping product with the odd FNV prime is injective on 64-bit words |
| Audit.MixInjective | crates/voltnuerongrid-audit/src/lib.rs:43-44 | when one mixing round gives equal results, the states were equal if and only if the bytes were |
| Audit.FoldInjective | crates/voltnuerongrid-audit/src/lib.rs:41-45 | hashing the same bytes from two start states agrees if and only if the states agree |
| Audit.FnvIgnoresCommonEnding | crates/voltnuerongrid-audit/src/lib.rs:41-45 | a common ending neither hides nor creates a difference of hashes |
| Audit.FnvSeesOneByte | crates/voltnuerongrid-audit/src/lib.rs:41-45 | two strings of one length that differ in exactly one byte never collide |
| Audit.FnvIs | crates/voltnuerongrid-audit/src/lib.rs:38-45 | the hash is FNV-1a with the published constants: it starts at the offset basis, and each further byte first flips its bits in and then takes the product with the prime modulo 2^64 |
| Audit.HexInjective | crates/voltnuerongrid-audit/src/lib.rs:46 | the 16-digit hexadecimal rendering is injective on 64-bit words |
| Audit.HexIsNumeral | crates/voltnuerongrid-audit/src/lib.rs:46 | the rendering is the 16-digit lower-case hexadecimal numeral of the word |
| Audit.DecimalIsNumeral | crates/voltnuerongrid-audit/src/lib.rs:40 | a number is rendered as its decimal numeral without leading zeros |
| Audit.GenesisText | crates/voltnuerongrid-audit/src/lib.rs:34 | the seed of the chain is the documented text |
| Audit.HashedStringIs | crates/voltnuerongrid-audit/src/lib.rs:40 | the hashed string is the previous hash and the fields in the documented order, separated by bars |
| Audit.ChainStep | crates/voltnuerongrid-audit/src/lib.rs:37-47 | the loop computes the hexadecimal FNV-1a value of the joined string |
| Audit.VerifyChainTamperPoint | crates/voltnuerongrid-audit/src/lib.rs:131-148 | the walk returns the id of the first event whose stored hash is not the recomputed one |
| Audit.VerifyAcceptsExactlyChains | crates/voltnuerongrid-audit/src/lib.rs:121-148 | verification reports nothing if and only if every stored hash follows from the one before it |
| Audit.ReplacedEventVerdict | crates/voltnuerongrid-audit/src/lib.rs:127-148 | replacing an event of an intact log, keeping its stored hash, is reported at that event if and only if the FNV-1a values differ, and is invisible otherwise |
| Audit.RewrittenFieldVerdict | crates/voltnuerongrid-audit/src/lib.rs:40-47 | the exact verdict for rewriting one hashed field to any contents: only the part up to the field decides |
| Audit.OneByteTamperingIsCaught | crates/voltnuerongrid-audit/src/lib.rs:28-47 | changing one byte of actor, action, outcome or details is always reported, at that event |
| Audit.TruncationIsInvisible | crates/voltnuerongrid-audit/src/lib.rs:131-148 | cutting the end off an intact log is never reported |
| Audit.RemovedEventVerdict | crates/voltnuerongrid-audit/src/lib.rs:131-148 | removing an event other than the last is reported at the event after it if and only if the two hashes around the gap have different FNV-1a values |
| Audit.UncoveredFieldsAreInvisible | crates/voltnuerongrid-audit/src/lib.rs:28-40 | rewriting the kind or the timestamp is never reported: the claim that mutating any field breaks the chain does not hold |
| Audit.ShiftedBoundaryIsInvisible | crates/voltnuerongrid-audit/src/lib.rs:40 | moving text across the unescaped separator between actor and action is never reported |
| Audit.SameHashBackwards | crates/voltnuerongrid-audit/src/lib.rs:131-148 | walking back from equal hashes without a collision, two intact logs have equal length and equal hashed strings |
| Audit.SameFinalHash | crates/voltnuerongrid-audit/src/lib.rs:34-47 | two intact logs with the same final hash hashed the same strings, or an FNV-1a collision sits in them at the same distance from the end |
| Audit.HashedStringDetermines | crates/voltnuerongrid-audit/src/lib.rs:40 | without a separator in actor, action and outcome, the hashed string determines the previous hash and every hashed field |
| Audit.SameFinalHashSameLog | crates/voltnuerongrid-audit/src/lib.rs:34-47 | two such intact logs with the same final hash hold the same events up to kinds and timestamps, or an FNV-1a collision sits in them at the same distance from the end |
| Audit.AppendOnlyAuditSink.constructor | crates/voltnuerongrid-audit/src/lib.rs:63-69 | a new sink is an intact empty log |
| Audit.AppendOnlyAuditSink.Append | crates/voltnuerongrid-audit/src/lib.rs:71-101 | the event gets the next number and extends the log, which stays an intact chain |
| Escaping.EscapeComponent | crates/voltnuerongrid-ingest/src/lib.rs:852-863 | the loop computes the escaped form |
| Escaping.UnescapeComponent | crates/voltnuerongrid-ingest/src/lib.rs:865-885 | the loop, which consumes the character after a backslash with it, computes the unescaped form |
| Escaping.UnescapeEscape | crates/voltnuerongrid-ingest/src/lib.rs:852-885 | unescaping undoes escaping on every string |
| Escaping.EscapedHasNoSeparators | crates/voltnuerongrid-ingest/src/lib.rs:852-863 | an escaped string holds no tab and no newline |
| Escaping.EscapeFieldIsEscape | crates/voltnuerongrid-store/src/wal_adapter.rs:122-127 | the log's three replacement passes give what the single pass gives |
| Escaping.EscapeStripCr | crates/voltnuerongrid-store/src/wal_adapter.rs:69-70 | losing a final carriage return commutes with escaping |
| Text.ParseDecimal | crates/voltnuerongrid-store/src/wal_adapter.rs:105-110 | parsing a printed number gives it back when it is below the type's limit, and fails otherwise |
| Text.SplitJoin | crates/voltnuerongrid-ingest/src/lib.rs:776-783 | splitting undoes joining when no part holds the separator |
| Text.CollectSorted | crates/voltnuerongrid-ingest/src/lib.rs:755-761 | collecting keys in any order and sorting gives the one ascending sequence of them |
| Text.LessIsLessAt | crates/voltnuerongrid-ingest/src/lib.rs:755-761 | one key sorts before another if and only if it is a proper beginning of it or is smaller at the first place where they differ |
| Text.LowerIgnoresCase | crates/voltnuerongrid-exec-datafusion/src/lib.rs:405-422 | two texts have the same lower-case form if and only if they differ only in the case of ASCII letters |
| Wal.DecodeEncode | crates/voltnuerongrid-store/src/wal_adapter.rs:89-120 | a record survives its own line, whatever its strings contain |
| Wal.DecodesExactly | crates/voltnuerongrid-store/src/wal_adapter.rs:99-120 | a line decodes if and only if it has four fields and the first two are unsigned 64-bit and 128-bit decimals; the value may hold tabs |
| Wal.ReadBack | crates/voltnuerongrid-store/src/wal_adapter.rs:48-77 | reading a file written by appends always succeeds and gives every record in order, each value without a final carriage return |
| Wal.ReadBackLossless | crates/voltnuerongrid-store/src/wal_adapter.rs:59-77 | the file gives the records back unchanged if and only if no value ends in a carriage return |
| Wal.BadLineStops | crates/voltnuerongrid-store/src/wal_adapter.rs:69-76 | whatever records precede it, the first line that does not decode is the error, and nothing after it is read |
| Wal.BlankLineSkipped | crates/voltnuerongrid-store/src/wal_adapter.rs:71-73 | a line of spaces and tabs counts for nothing |
| Wal.FileWalAdapter.constructor | crates/voltnuerongrid-store/src/wal_adapter.rs:30-40 | a log file on disk is opened as it is, a missing one is created empty |
| Wal.FileWalAdapter.Append | crates/voltnuerongrid-store/src/wal_adapter.rs:48-57 | a successful append adds one encoded line; a failed one changes nothing |
| Wal.FileWalAdapter.ReadAll | crates/voltnuerongrid-store/src/wal_adapter.rs:59-77 | the line loop skips blank lines, decodes the others and stops at the first corrupt one |
| EventCodec.ParseDirectionText | crates/voltnuerongrid-ingest/src/lib.rs:835-850 | the direction parser undoes the direction printer |
| EventCodec.UnpackPack | crates/voltnuerongrid-ingest/src/lib.rs:772-785 | splitting and unescaping undo escaping and joining |
| EventCodec.DecodeEncodeEvent | crates/voltnuerongrid-ingest/src/lib.rs:744-833 | every event survives its record: arbitrary strings, any attribute map, and the field count always fits |
| EventCodec.RecoveredUnchanged | crates/voltnuerongrid-ingest/src/lib.rs:744-778 | an event is recovered unchanged if and only if its last attribute does not end in a carriage return |
| EventCodec.LastKeyIsGreatest | crates/voltnuerongrid-ingest/src/lib.rs:755-766 | the attribute written last is the one with the greatest key |
| EventCodec.DecodeReadBack | crates/voltnuerongrid-ingest/src/lib.rs:780-833 | decoding what the log file gives back for an event succeeds and yields its recovered form |
| EventCodec.FieldCountMustFit | crates/voltnuerongrid-ingest/src/lib.rs:786-814 | a payload decodes if and only if the attribute count written in it is that of the fields that follow; fewer than eight fields are refused |
| EventCodec.EncodeEventBusRecord | crates/voltnuerongrid-ingest/src/lib.rs:744-778 | the encoder, sorting keys and pushing components, builds the specified record, with the event's number and time and the key made from its number |
| EventCodec.PushAttributes | crates/voltnuerongrid-ingest/src/lib.rs:763-766 | the attribute loop flattens the map in key order |
| EventCodec.CollectAttributes | crates/voltnuerongrid-ingest/src/lib.rs:816-819 | the attribute loop rebuilds the map from the flat list |
| EventBus.RecoverAll | crates/voltnuerongrid-ingest/src/lib.rs:498-523 | replaying the log keeps every event in order and lands on the successor of the last number |
| EventBus.RecoverFollows | crates/voltnuerongrid-ingest/src/lib.rs:498-523 | recovering any log, whoever wrote it, succeeds if and only if every record decodes; it then holds just those events in order, and each counter is 1 or one past the greatest number read |
| EventBus.OpenHistory | crates/voltnuerongrid-ingest/src/lib.rs:498-523 | opening the log of any history succeeds |
| EventBus.PublishExtends | crates/voltnuerongrid-ingest/src/lib.rs:529-557 | a publish adds the next event, numbered on from the last, to the file and to the live transport |
| EventBus.ReopenRebuilds | crates/voltnuerongrid-ingest/src/lib.rs:498-523 | a restart rebuilds the transport of the same history |
| EventBus.RunMatchesHistory | crates/voltnuerongrid-ingest/src/lib.rs:498-557 | after every run of publishes, failed publishes and restarts, file and transport are those of the successful publishes, numbered 1, 2, 3 and so on: no number is used twice |
| EventBus.CrashRecovery | crates/voltnuerongrid-ingest/src/lib.rs:498-557 | after every run a restart succeeds with the same next numbers, and with the same events if and only if no event published since the last opening loses a carriage return |
| EventBus.EventsCarryMessages | crates/voltnuerongrid-ingest/src/lib.rs:498-557 | after every run the i-th event, live and after a restart, holds every field of the i-th message published and the number i + 1; only a carriage return at the end of its last attribute may be missing, and not before a restart |
| EventBus.RestartLosesCarriageReturn | crates/voltnuerongrid-ingest/src/lib.rs:498-523 | one event whose attribute ends in a carriage return comes back from a restart without it |
| EventBus.FileBackedEventBusTransport.OpenTransport | crates/voltnuerongrid-ingest/src/lib.rs:498-523 | opening yields a transport with the replayed state, or the reader's or decoder's error |
| EventBus.FileBackedEventBusTransport.PublishMessage | crates/voltnuerongrid-ingest/src/lib.rs:529-557 | publishing takes the specified step on file and counters and returns an event with every field of the message and the next numbers; a failed append leaves all as it was |
| CursorStore.StepKeepsInv | crates/voltnuerongrid-ingest/src/lib.rs:1012-1083 | every save, failed save and reopening keeps the log readable, the sequence numbers rising and the cursors represented |
| CursorStore.NextSequenceIs | crates/voltnuerongrid-ingest/src/lib.rs:1012-1023 | the number a reopened store starts at is above every one on the log and one past some, or 1 on an empty log |
| CursorStore.WalStoreRefinesMap | crates/voltnuerongrid-ingest/src/lib.rs:1006-1083 | after every run, loading a stream gives its last successful save, and the sequence numbers on the log strictly increase |
| CursorStore.InMemoryReplayCursorStore.SaveCheckpoint | crates/voltnuerongrid-ingest/src/lib.rs:999-1003 | saving sets that stream's checkpoint and no other |
| CursorStore.WalBackedReplayCursorStore.constructor | crates/voltnuerongrid-ingest/src/lib.rs:1012-1023 | opening starts one past the greatest sequence number on the log, or at 1 |
| CursorStore.WalBackedReplayCursorStore.LoadCheckpoint | crates/voltnuerongrid-ingest/src/lib.rs:1060-1068 | the backwards search finds the latest record of the stream |
| CursorStore.WalBackedReplayCursorStore.SaveCheckpoint | crates/voltnuerongrid-ingest/src/lib.rs:1070-1082 | a save appends the record with the next sequence number, the stream's own key and the event number; the sequence number is used up even when the append fails |
| Delivery.SelectSkips | crates/voltnuerongrid-ingest/src/lib.rs:953-969 | selecting past the n-th event of a stream skips exactly its first n events |
| Delivery.SelectPicks | crates/voltnuerongrid-ingest/src/lib.rs:963-968 | the selection is the events of that stream with that number or a later one, all of them, in log order |
| Delivery.BatchIsNext | crates/voltnuerongrid-ingest/src/lib.rs:953-969 | a replay from the checkpoint is exactly the next events not yet accepted |
| Delivery.StepKeepsOrder | crates/voltnuerongrid-ingest/src/lib.rs:901-981 | a stream in order stays so through a step if and only if the step acknowledges, if anything of the stream, just the events a replay of as many would deliver now; any list may be acknowledged |
| Delivery.WrongStays | crates/voltnuerongrid-ingest/src/lib.rs:901-981 | an accepted event that is not the one due at its place stays wrong through every further step |
| Delivery.InOrderExactlyWhen | crates/voltnuerongrid-ingest/src/lib.rs:901-981 | at the end of every run that acknowledges logged events, a stream is in order if and only if each of its acknowledgements was of just the events that came next |
| Delivery.DeliveredInOrder | crates/voltnuerongrid-ingest/src/lib.rs:901-981 | what a consumer that acknowledges in time accepted is a prefix of its stream, each event once and in ascending order, with the checkpoint on the last one, whatever others acknowledge |
| Delivery.OlderBatchMovesBack | crates/voltnuerongrid-ingest/src/lib.rs:971-981 | acknowledging an older, overlapping batch takes its event twice and moves the checkpoint back from 2 to 1 |
| Delivery.ReachTwoEvents | crates/voltnuerongrid-ingest/src/lib.rs:901-921 | the state that example starts from is reached by appending two events |
| Delivery.ReplayStaysTimely | crates/voltnuerongrid-ingest/src/lib.rs:953-981 | acknowledging a replay made since the last acknowledgement of its stream is in time, whatever else happened |
| Delivery.EmptyReplayMeansCaughtUp | crates/voltnuerongrid-ingest/src/lib.rs:953-969 | a replay asking for at least one event is empty if and only if nothing is outstanding |
| Delivery.UnacknowledgedIsRedelivered | crates/voltnuerongrid-ingest/src/lib.rs:953-981 | until the stream is acknowledged, whatever else happens, a later replay starts with everything the earlier one delivered |
| Delivery.InMemoryEventLog.AppendEvent | crates/voltnuerongrid-ingest/src/lib.rs:901-921 | the event gets the next number and every field of the message, and extends the log |
| Tokenizer.RunLenIs | crates/voltnuerongrid-sql/src/tokenizer.rs:131-133 | a scanning loop stops at the first character outside its class, and nowhere else |
| Tokenizer.ScanRun | crates/voltnuerongrid-sql/src/tokenizer.rs:131-133 | the loop advances over the longest run of the class |
| Tokenizer.ScanString | crates/voltnuerongrid-sql/src/tokenizer.rs:166-186 | the loop halves doubled quotes and stops after the closing one or at the end |
| Tokenizer.ScanBlock | crates/voltnuerongrid-sql/src/tokenizer.rs:151-156 | the loop stops at the end mark, or one short of the end of an unterminated comment |
| Tokenizer.ScanExponent | crates/voltnuerongrid-sql/src/tokenizer.rs:225-233 | an optional sign and digits after the exponent letter |
| Tokenizer.ScanNumber | crates/voltnuerongrid-sql/src/tokenizer.rs:219-237 | digits and dots, then an optional exponent |
| Tokenizer.ScanQuotedIdentifier | crates/voltnuerongrid-sql/src/tokenizer.rs:188-216 | a quoted identifier up to its closing quote or the end |
| Tokenizer.ScanComment | crates/voltnuerongrid-sql/src/tokenizer.rs:138-163 | line and block comments |
| Tokenizer.ScanWord | crates/voltnuerongrid-sql/src/tokenizer.rs:239-253 | the longest word, upper-cased into a keyword when it is one |
| Tokenizer.ScanBare | crates/voltnuerongrid-sql/src/tokenizer.rs:218-274 | numbers, words, symbols and unknown characters, in the order they are tried |
| Tokenizer.ScanOneOrTwo | crates/voltnuerongrid-sql/src/tokenizer.rs:255-274 | two-character symbols before single ones before unknown characters |
| Tokenizer.ScanToken | crates/voltnuerongrid-sql/src/tokenizer.rs:126-275 | one round of the loop reads the specified token and always advances |
| Tokenizer.Tokenize | crates/voltnuerongrid-sql/src/tokenizer.rs:121-278 | the loop yields the specified tokens and consumes the whole input |
| TokenizerRoundTrip.NextOfPrinted | crates/voltnuerongrid-sql/src/tokenizer.rs:84-98 | a well-formed token that ends in front of the following text is read back exactly |
| TokenizerRoundTrip.RunsOn | crates/voltnuerongrid-sql/src/tokenizer.rs:121-278 | one that does not end there is read as another token |
| TokenizerRoundTrip.RoundTrip | crates/voltnuerongrid-sql/src/tokenizer.rs:84-278 | printing well-formed tokens and tokenizing gives the same list if and only if each token ends where the next is printed |
| TokenizerRoundTrip.SpacedRoundTrips | crates/voltnuerongrid-sql/src/tokenizer.rs:84-278 | well-formed tokens separated by single spaces always come back |
| TokenizerRoundTrip.SemanticRoundTrip | crates/voltnuerongrid-sql/src/tokenizer.rs:281-283 | the semantic tokens of a statement printed with single spaces are the statement |
| TokenizerRoundTrip.SqlKeywordsWellFormed | crates/voltnuerongrid-sql/src/tokenizer.rs:24-55 | every keyword of the source is a well-formed keyword token |
| TokenizerCompose.SingleTokenRoundTrip | crates/voltnuerongrid-sql/src/tokenizer.rs:84-278 | exactly which single tokens survive printing and tokenizing, among all tokens |
| TokenizerCompose.NextBeforeSpace | crates/voltnuerongrid-sql/src/tokenizer.rs:126-275 | a complete first token is not changed by whitespace further on |
| TokenizerCompose.TokensAroundWhitespace | crates/voltnuerongrid-sql/src/tokenizer.rs:121-278 | tokenizing is compositional at any whitespace: if the first text does not end inside a quote or comment, the tokens are those of both texts with whitespace between |
| TokenizerCompose.UnclosedComment | crates/voltnuerongrid-sql/src/tokenizer.rs:150-163 | a block comment that is not closed leaves out its last character, which is then scanned on its own |
| TokenizerGrammar.KeywordInAnyCase | crates/voltnuerongrid-sql/src/tokenizer.rs:246-248 | a keyword of the source in any mixture of upper and lower case is read as that keyword |
| TokenizerGrammar.OtherNames | crates/voltnuerongrid-sql/src/tokenizer.rs:239-253 | any other word is read as an identifier spelt as it stands |
| TokenizerGrammar.QuotedName | crates/voltnuerongrid-sql/src/tokenizer.rs:188-216 | a name in double quotes or backticks is read as the identifier between them |
| TokenizerGrammar.DoubledLiteral | crates/voltnuerongrid-sql/src/tokenizer.rs:166-186 | a text with its quotes doubled, in quotes, is read as that text |
| TokenizerGrammar.NumberLiteral | crates/voltnuerongrid-sql/src/tokenizer.rs:219-237 | digits with an optional point and an optional exponent are one number, spelt as they stand |
| TokenizerGrammar.OneChar | crates/voltnuerongrid-sql/src/tokenizer.rs:126-275 | the token of every single character that does not start a word |
| TokenizerGrammar.TwoChars | crates/voltnuerongrid-sql/src/tokenizer.rs:255-262 | two characters are one symbol if and only if they are one of the seven two-character operators |
| TokenizerGrammar.SemanticPicks | crates/voltnuerongrid-sql/src/tokenizer.rs:281-283 | the semantic tokens are all the others than whitespace and comments, in order |
| Cache.LiveSmaller | crates/voltnuerongrid-opt/src/lib.rs:288-301 | removing the expired entries leaves the live ones, and the counts add up |
| Cache.CachePartition.constructor | crates/voltnuerongrid-opt/src/lib.rs:164-176 | a new partition is empty, with its counters at 0 and its breaker closed |
| Cache.CachePartition.GetValue | crates/voltnuerongrid-opt/src/lib.rs:179-202 | a read hits, misses, or removes an expired entry, with the counters it moves; a hit is the entry's last use |
| Cache.CachePartition.SetValue | crates/voltnuerongrid-opt/src/lib.rs:205-227 | a write is rejected by an open breaker or makes room and stores, moving an open breaker to half open |
| Cache.CachePartition.IncrementValue | crates/voltnuerongrid-opt/src/lib.rs:269-285 | the sum with the live numeric value, or with 0, is written |
| Cache.CachePartition.ExpireKey | crates/voltnuerongrid-opt/src/lib.rs:252-264 | the deadline of a live entry is re-based; an expired entry is removed |
| Cache.CachePartition.InvalidateKey | crates/voltnuerongrid-opt/src/lib.rs:230-232 | the key is removed and its presence reported |
| Cache.CachePartition.InvalidateEntries | crates/voltnuerongrid-opt/src/lib.rs:235-239 | everything is removed and counted |
| Cache.CachePartition.EvictPrefix | crates/voltnuerongrid-opt/src/lib.rs:398-400 | exactly the keys with the prefix are removed |
| Cache.CachePartition.EvictExpired | crates/voltnuerongrid-opt/src/lib.rs:288-301 | exactly the expired entries go, and are counted |
| Cache.CachePartition.LeastRecent | crates/voltnuerongrid-opt/src/lib.rs:312-316 | the scan finds an entry used no later than any other |
| Cache.CachePartition.EvictLruIfFull | crates/voltnuerongrid-opt/src/lib.rs:304-322 | nothing, or the expired entries, or also one least recent entry is evicted, each counted |
| Cache.CachePartition.RebalanceEntries | crates/voltnuerongrid-opt/src/lib.rs:351-363 | the expired entries go, the time is noted, and the counts before, evicted and after are reported |
| Cache.CachePartition.NoteFailure | crates/voltnuerongrid-opt/src/lib.rs:325-332 | the failure is counted and opens the breaker at the threshold |
| Cache.CachePartition.NoteSuccess | crates/voltnuerongrid-opt/src/lib.rs:335-338 | the count is reset and the breaker closed |
| CacheRuns.WithinCapacity | crates/voltnuerongrid-opt/src/lib.rs:205-322 | in every run the partition never exceeds its maximum (a maximum of 0 acts as 1) |
| CacheRuns.EvictionIsMinimal | crates/voltnuerongrid-opt/src/lib.rs:304-322 | a write displaces a live entry only when the partition is full of live ones, then exactly one, used no later than any other |
| CacheRuns.OverwriteMayDisplace | crates/voltnuerongrid-opt/src/lib.rs:205-227 | some outcome of overwriting a live key displaces another live entry if and only if the live entries fill the partition and one other than the key is least recent |
| CacheRuns.OverwriteMustDisplace | crates/voltnuerongrid-opt/src/lib.rs:205-227 | every outcome does if and only if the live entries fill the partition and the key itself is not least recent |
| CacheFreshness.ExpiredIsStale | crates/voltnuerongrid-opt/src/lib.rs:33-39 | an entry counts as expired if and only if its deadline has passed |
| CacheFreshness.StoredEntries | crates/voltnuerongrid-opt/src/lib.rs:205-227 | an accepted write leaves the new entry and some unchanged old ones |
| CacheFreshness.EntriesAgree | crates/voltnuerongrid-opt/src/lib.rs:179-301 | in every run each entry carries the last value written to its key and that write's deadline, as re-based since |
| CacheFreshness.HitIsNeverStale | crates/voltnuerongrid-opt/src/lib.rs:179-301 | in every run, at any timestamps, a hit returns the last value written, not later than its deadline |
| CacheFreshness.ReadsAreExact | crates/voltnuerongrid-opt/src/lib.rs:179-322 | while time moves forward a read answers as an unbounded map would, except for keys that eviction displaced |
| CacheFreshness.IncrementIsExact | crates/voltnuerongrid-opt/src/lib.rs:269-285 | while time moves forward an increment adds to the number an unbounded map would hold, or to 0 for keys that eviction displaced, unless the breaker rejects it |
| CacheFreshness.ExpireIsExact | crates/voltnuerongrid-opt/src/lib.rs:252-264 | while time moves forward, setting a new deadline succeeds if and only if an unbounded map would hold a fresh value that eviction did not displace |
| CacheUse.RunKnowsUse | crates/voltnuerongrid-opt/src/lib.rs:41-44 | in every run each entry's last access is the moment of the last hit or write of its key, its access count the number of hits since that write, and the counters the hits and misses of the run |
| CacheUse.EvictsLeastRecentlyUsed | crates/voltnuerongrid-opt/src/lib.rs:304-322 | in every run a write displaces at most one live entry, only when the partition is full of live ones, and one whose last hit or write is not later than that of any other |
| CacheBreaker.BreakerFollowsHistory | crates/voltnuerongrid-opt/src/lib.rs:205-227 | in every run the breaker and its counter are those the history of failures, successes and writes determines |
| CacheBreaker.RejectedExactlyWhen | crates/voltnuerongrid-opt/src/lib.rs:325-348 | in every run a write is rejected if and only if the breaker tripped since the last success, no write was accepted since the last failure, and the cooldown since then has not passed |
| CacheBreaker.HalfOpenFailureReopens | crates/voltnuerongrid-opt/src/lib.rs:325-348 | one failure while half open rejects writes for a whole cooldown again |
| CacheManager.RunIsRestorable | crates/voltnuerongrid-opt/src/lib.rs:205-264 | every partition a run can produce fits its policy and has deadlines wherever the policy gives a default one |
| CacheManager.SnapshotFits | crates/voltnuerongrid-opt/src/lib.rs:390-395 | the snapshot of such partitions can be loaded without eviction |
| CacheManager.LoadOne | crates/voltnuerongrid-opt/src/lib.rs:585-586 | loading one saved entry into a partition with room adds it with its deadline and evicts nothing |
| CacheManager.DistributedCacheManager.constructor | crates/voltnuerongrid-opt/src/lib.rs:413-418 | a new manager holds no partition |
| CacheManager.DistributedCacheManager.SetIn | crates/voltnuerongrid-opt/src/lib.rs:425-461 | a write creates the partition on first use, takes the step there, and leaves the other partitions alone |
| CacheManager.DistributedCacheManager.SaveEntries | crates/voltnuerongrid-opt/src/lib.rs:390-395 | the loop saves the value and the absolute deadline of every entry of a partition |
| CacheManager.DistributedCacheManager.SnapshotToJson | crates/voltnuerongrid-opt/src/lib.rs:553-568 | the loop over the partitions saves every entry of every partition |
| CacheManager.DistributedCacheManager.RestorePartition | crates/voltnuerongrid-opt/src/lib.rs:575-588 | the surviving entries of one saved partition are written, each once, in any order; a fresh partition with room for them holds exactly them |
| CacheManager.DistributedCacheManager.RestoreFromJson | crates/voltnuerongrid-opt/src/lib.rs:572-591 | restoring is a write of each surviving entry, once, in whatever order they come, whatever the manager holds; into an empty manager with room it loads exactly those and evicts nothing |
| CacheManager.RestoredEntries | crates/voltnuerongrid-opt/src/lib.rs:551-591 | after snapshot and restore an entry is present if and only if its deadline is after that moment or absent, with the same value and deadline |
| CacheManager.RestoredReads | crates/voltnuerongrid-opt/src/lib.rs:551-591 | reads at or after the restore find what they would have found without it, except an entry whose deadline is that very moment |
| CacheManager.ManagerIsRestorable | crates/voltnuerongrid-opt/src/lib.rs:425-461 | in every run of a manager each partition fits its policy and has deadlines wherever the policy gives a default one |
| CacheManager.RestartKeepsReads | crates/voltnuerongrid-opt/src/lib.rs:551-591 | after every run of a manager, snapshot and restore keep all later reads, with that one exception |
| Controller.MarkLatest | crates/voltnuerongrid-store/src/adaptive_controller.rs:292-305 | the reverse walk marks the latest record with that segment and timestamp, once, and changes nothing else |
| Controller.LatestMatchIs | crates/voltnuerongrid-store/src/adaptive_controller.rs:295-303 | the record found is the last one with both the segment and the timestamp, or there is none |
| Controller.PushIsLatest | crates/voltnuerongrid-store/src/adaptive_controller.rs:367-374 | pushing onto the bounded ring keeps it the latest records of the log |
| Controller.MarkIsLatest | crates/voltnuerongrid-store/src/adaptive_controller.rs:295-303 | marking in the ring is marking the same record of the log |
| Controller.MarkAddsOne | crates/voltnuerongrid-store/src/adaptive_controller.rs:297-300 | a first mark adds one to the applied records |
| Controller.StepKeepsInv | crates/voltnuerongrid-store/src/adaptive_controller.rs:259-374 | every atomic step of every thread keeps the ring, the counters and the values threads have read consistent |
| Controller.EveryInterleaving | crates/voltnuerongrid-store/src/adaptive_controller.rs:259-374 | under every interleaving the ring is the latest records appended, each finished metrics snapshot has history size at most the decisions and applied records at most the applied count, and the no-change counter is never ahead of the decision counter |
| Controller.QuietCountersCount | crates/voltnuerongrid-store/src/adaptive_controller.rs:259-374 | under every interleaving, whenever no thread is under way the three counters are the numbers of records appended, of no-change records and of applied records |
| Controller.ThreadRecordsInOrder | crates/voltnuerongrid-store/src/adaptive_controller.rs:259-284 | under every interleaving the records a thread has appended, with those it still has to append, are the decisions of the batches it took on, in order |
| Controller.RingMovesOn | crates/voltnuerongrid-store/src/adaptive_controller.rs:286-374 | however a run goes on, the later ring is the earlier one with the oldest records dropped, just as many as needed, and the new ones behind; a record that stays is unchanged but for a mark it may have gained |
| Controller.SnapshotFitsExactlyWhen | crates/voltnuerongrid-store/src/adaptive_controller.rs:332-346 | a snapshot reports no more no-change decisions than decisions if and only if the other threads count, between its first two loads, no more of them than there was room for at the first |
| Controller.SnapshotMayShowMoreNoChanges | crates/voltnuerongrid-store/src/adaptive_controller.rs:332-346 | an interleaving in which one snapshot shows more no-change decisions than decisions |
| Like.GlobLikeIsLike | crates/voltnuerongrid-exec-datafusion/src/lib.rs:496-531 | the matcher accepts if and only if the text can be cut into one fitting piece for each pattern character, as in SQL-92 section 8.5 |
| Like.AcceptedIsCut | crates/voltnuerongrid-exec-datafusion/src/lib.rs:503-531 | from any position, acceptance yields such a cut |
| Like.CutIsAccepted | crates/voltnuerongrid-exec-datafusion/src/lib.rs:503-531 | from any position, such a cut is accepted |
| Predicate.CompareIsConsistent | crates/voltnuerongrid-exec-datafusion/src/lib.rs:434-466 | swapping operands mirrors a comparison, and among values that are not null exactly one of a comparison and its opposite holds |
| Predicate.CompareIsRelated | crates/voltnuerongrid-exec-datafusion/src/lib.rs:434-466 | a comparison holds if and only if no side is null and the sides stand in that relation: integers as integers, an integer and a float as floats, other kinds by their texts |
| Predicate.NegationMirrors | crates/voltnuerongrid-exec-datafusion/src/lib.rs:382-388 | negating floats reverses their order and undoes itself |
| Predicate.NumbersCompare | crates/voltnuerongrid-exec-datafusion/src/lib.rs:439-450 | two finite floats, and two integers, compare as the numbers they are, for all six operators |
| Predicate.ChainsExactlyWhen | crates/voltnuerongrid-exec-datafusion/src/lib.rs:434-466 | among integers, texts and booleans the order is transitive for a mixture of kinds if and only if it is not two integers with a text |
| Predicate.IntsAndTextCycle | crates/voltnuerongrid-exec-datafusion/src/lib.rs:453-454 | two integers and a text that form a cycle |
| Predicate.NumbersChainExactlyWhen | crates/voltnuerongrid-exec-datafusion/src/lib.rs:441-450 | among floats other than NaN and the integers of a range the order is transitive if and only if the conversion to floats is strictly increasing on the range |
| Predicate.ExactIntegersChain | crates/voltnuerongrid-exec-datafusion/src/lib.rs:441-450 | it is transitive on the integers from -2^53 to 2^53, where the conversion is exact |
| Predicate.RoundedNeighboursDoNotChain | crates/voltnuerongrid-exec-datafusion/src/lib.rs:441-450 | it is not for 2^53 + 1, the float 2^53 and 2^53, as the first is rounded |
| Predicate.NaNEqualsEveryNumber | crates/voltnuerongrid-exec-datafusion/src/lib.rs:442-450 | NaN equals every number, so it chains any two |
| Predicate.FloatsAndTextCycle | crates/voltnuerongrid-exec-datafusion/src/lib.rs:453-454 | two floats and a text form a cycle as integers do |
| Predicate.IntegersReadBack | crates/voltnuerongrid-exec-datafusion/src/lib.rs:405-422 | a stored 64-bit integer is read back as that integer |
| ThreeValued.SupportedSucceeds | crates/voltnuerongrid-exec-datafusion/src/lib.rs:272-337 | a predicate without a refused operator never fails |
| ThreeValued.ConnectivesAreKleene | crates/voltnuerongrid-exec-datafusion/src/lib.rs:272-297 | the reference's AND, OR and NOT have an answer if and only if every way of settling unknown operands has that answer |
| Readings.SameMeaning | crates/voltnuerongrid-exec-datafusion/src/lib.rs:272-391 | the truth of a condition depends on how its values are read only through the values at its value positions |
| Readings.ColumnsDecide | crates/voltnuerongrid-exec-datafusion/src/lib.rs:350-403 | for a condition of computed expressions a reading that takes literals, parentheses and signs as usual is the evaluator's if it reads the columns as the evaluator does |
| Readings.ColumnsRead | crates/voltnuerongrid-exec-datafusion/src/lib.rs:350-403 | the row key is read as text, an absent column as null, and a qualified name as its last part |
| Readings.NumeralsRead | crates/voltnuerongrid-exec-datafusion/src/lib.rs:360-390 | a numeral is read as its integer, with its sign |
| Readings.BooleansRead | crates/voltnuerongrid-exec-datafusion/src/lib.rs:405-422 | a stored true or false in any case is read as that boolean and is found by its text if and only if that is in lower case |
| Readings.OthersRead | crates/voltnuerongrid-exec-datafusion/src/lib.rs:405-422 | a stored text that reads as a float only is that float, and one that reads as no number and no boolean is itself |
| Readings.BareInteger | crates/voltnuerongrid-exec-datafusion/src/lib.rs:331-335 | a bare integer column passes if and only if it is not 0 |
| Readings.BareFloat | crates/voltnuerongrid-exec-datafusion/src/lib.rs:424-432 | a bare float literal passes if and only if it is below or above zero or NaN |
| Readings.BareText | crates/voltnuerongrid-exec-datafusion/src/lib.rs:331-335 | a bare row key passes if and only if it is not empty, and an absent column never |
| Readings.AgreesWithSql | crates/voltnuerongrid-exec-datafusion/src/lib.rs:272-337 | whenever SQL finds a condition true or false, from values the evaluator reads the same way, the evaluator answers the same, on every predicate and row |
| ThreeValued.UnknownRejects | crates/voltnuerongrid-exec-datafusion/src/lib.rs:272-337 | with values read as the evaluator reads them, an unknown condition falls on the rejecting side if every unknown atom does, counting NOTs |
| ThreeValued.TrustedIsExact | crates/voltnuerongrid-exec-datafusion/src/lib.rs:272-337 | on such rows a predicate passes if and only if it is true, with values read as the evaluator reads them |
| Readings.ExactWithSql | crates/voltnuerongrid-exec-datafusion/src/lib.rs:272-337 | without NOT and LIKE a row passes if and only if SQL finds the condition true, from values the evaluator reads the same way |
| Readings.UncomputedIsNull | crates/voltnuerongrid-exec-datafusion/src/lib.rs:350-391 | an expression other than a column, a known literal, or signs and parentheses around one is null on every row |
| Readings.UncomputedComparison | crates/voltnuerongrid-exec-datafusion/src/lib.rs:283-297 | a comparison with such an expression passes on no row, and its NOT on every row |
| Readings.SumIsDropped | crates/voltnuerongrid-exec-datafusion/src/lib.rs:389 | a + 1 = 2 drops the row with a = 1, for which SQL finds it true |
| Readings.StoredTextIsFound | crates/voltnuerongrid-exec-datafusion/src/lib.rs:405-422 | a column that stores a text equals that text if and only if the text is how its parsed value prints |
| Readings.StoredIntegerTextIsFound | crates/voltnuerongrid-exec-datafusion/src/lib.rs:409-411 | a stored text that reads as an integer is found if and only if it is written the way that integer prints |
| Readings.LeadingZerosAreLost | crates/voltnuerongrid-exec-datafusion/src/lib.rs:405-411 | the stored text 007 is not found by comparing with it |
| ThreeValued.LikeExactlyWhen | crates/voltnuerongrid-exec-datafusion/src/lib.rs:324-329 | a LIKE predicate is right about a row if and only if no side is null or the empty text decides the rejecting way |
| ReadOnce.OnlyColumnsMatter | crates/voltnuerongrid-exec-datafusion/src/lib.rs:272-391 | rows that agree on the columns a condition reads get the same answers |
| ReadOnce.ComparisonIsTest | crates/voltnuerongrid-exec-datafusion/src/lib.rs:283-292 | comparing a column with an integer is true on some row and false on another, for every operator and integer strictly inside the 64-bit range |
| ReadOnce.TestUnknownOnBlank | crates/voltnuerongrid-exec-datafusion/src/lib.rs:272-337 | an atom with a true row and a false row is unknown on the row without columns, unless it is a null test |
| ReadOnce.TestFalls | crates/voltnuerongrid-exec-datafusion/src/lib.rs:283-329 | which answers an unknown atom may get on any row: its own NOT, and for LIKE the other one if its fixed side is empty, or both if neither side is fixed |
| ReadOnce.ExactIffUpright | crates/voltnuerongrid-exec-datafusion/src/lib.rs:272-337 | a condition whose atoms read distinct columns is right on every row if and only if every atom that can be unknown is answered, when it is, the way that rejects the row |
| ReadOnce.TestIsExposed | crates/voltnuerongrid-exec-datafusion/src/lib.rs:283-329 | every answer an unknown atom may get, it gets on some row |
| ReadOnce.NegatedIsExposed | crates/voltnuerongrid-exec-datafusion/src/lib.rs:295-297 | for any other such condition a row on which the evaluator accepts an unknown condition |
| Projection.ProjectColumns | crates/voltnuerongrid-exec-datafusion/src/lib.rs:537-568 | every name is returned with what its last column found in the row yields, and nothing else; a star returns the whole row |
| Projection.StarKeepsAll | crates/voltnuerongrid-exec-datafusion/src/lib.rs:539-541 | a star anywhere among the columns returns the whole row |
| Projection.PlainProjection | crates/voltnuerongrid-exec-datafusion/src/lib.rs:537-568 | projecting plain names restricts the row to them |
| Projection.AliasedColumn | crates/voltnuerongrid-exec-datafusion/src/lib.rs:537-568 | a column with AS in any case is looked up by the word before it and returned under the word after it |
| Projection.QualifiedColumn | crates/voltnuerongrid-exec-datafusion/src/lib.rs:537-568 | a qualified name absent from the row is looked up by its last part |
| Select.ProjectRows | crates/voltnuerongrid-exec-datafusion/src/lib.rs:235-239 | each row keeps its key and gets its columns projected |
| Select.KeyMatchesExactly | crates/voltnuerongrid-exec-datafusion/src/lib.rs:166-172 | a row belongs to a table if and only if its key is the table's name, alone or with a colon and anything after it; without a table every row does |
| Select.KeptPicks | crates/voltnuerongrid-exec-datafusion/src/lib.rs:174-194 | the rows kept are all those of the table on which the condition passes, in scan order |
| Select.PageIs | crates/voltnuerongrid-exec-datafusion/src/lib.rs:228-234 | the page is the stretch after the offset, as long as the limit, the maximum and the rows allow |
| Select.SelectRows | crates/voltnuerongrid-exec-datafusion/src/lib.rs:163-241 | the scan keeps the rows that pass, in order, skips the offset, stops at the lesser of the limit and the maximum, and projects the columns |
| Select.KeptIsSql | crates/voltnuerongrid-exec-datafusion/src/lib.rs:163-194 | for a condition without NOT and LIKE the rows kept are exactly the rows SQL selects, for every reading of values the evaluator shares on the rows scanned |
| Select.NoTrueRowIsLost | crates/voltnuerongrid-exec-datafusion/src/lib.rs:163-194 | for every supported condition, and every such reading of values, no row SQL selects is lost or moved |
| Select.PagesTile | crates/voltnuerongrid-exec-datafusion/src/lib.rs:228-241 | fetching pages by raising the offset visits every row once, in order |
| Columnar.RowsToBatch | crates/voltnuerongrid-exec-datafusion/src/datafusion.rs:204-244 | the batch holds the keys, then one null-padded column for each name in use, in ascending order |
| Columnar.CollectNames | crates/voltnuerongrid-exec-datafusion/src/datafusion.rs:208-214 | the distinct column names in ascending order |
| Columnar.ReadData | crates/voltnuerongrid-exec-datafusion/src/datafusion.rs:283-288 | the row map holds the cells of the columns other than the key column, nulls left out |
| Columnar.ReadRow | crates/voltnuerongrid-exec-datafusion/src/datafusion.rs:279-289 | a row gets its key from the key column, or a made-up one from its place in the output, and its cells |
| Columnar.BatchesToOutput | crates/voltnuerongrid-exec-datafusion/src/datafusion.rs:250-293 | the nested loops with the early exit yield the first rows of all the batches, up to the maximum |
| Columnar.SplitsKeepRows | crates/voltnuerongrid-exec-datafusion/src/datafusion.rs:273-291 | however a batch is cut into batches, its rows come out the same |
| Columnar.RoundTrip | crates/voltnuerongrid-exec-datafusion/src/datafusion.rs:204-293 | rows converted to a batch, cut up in any way and converted back are the first rows up to the maximum, with identical keys and maps |
| Columnar.Convert | crates/voltnuerongrid-exec-datafusion/src/datafusion.rs:204-293 | both conversions composed, around any cut, return the first rows up to the maximum |
| Columnar.SyntheticKeysDistinct | crates/voltnuerongrid-exec-datafusion/src/datafusion.rs:265-281 | without a key column each row's key is made from its place, and no two are the same |
| ChunkedLoader.ChunksFlatten | crates/voltnuerongrid-ingest/src/chunked_loader.rs:64 | the chunks concatenate to the input |
| ChunkedLoader.ChunkCount | crates/voltnuerongrid-ingest/src/chunked_loader.rs:64-65 | the chunk count is the ceiling quotient |
| ChunkedLoader.ChunkIs | crates/voltnuerongrid-ingest/src/chunked_loader.rs:64 | chunk b holds the b-th stretch of records |
| ChunkedLoader.DispatchWindows | crates/voltnuerongrid-ingest/src/chunked_loader.rs:67-77 | the nested window loops describe every chunk once, outcome i being chunk i, for every window |
| ChunkedLoader.LoadRecordsChunked | crates/voltnuerongrid-ingest/src/chunked_loader.rs:48-89 | the report: count, outcomes in order, and sizes adding up to the input |
| ChunkedLoader.ValidateChunk | crates/voltnuerongrid-ingest/src/chunked_loader.rs:124-139 | a task returns the valid records of its chunk in order and counts the others |
| ChunkedLoader.ValidPicks | crates/voltnuerongrid-ingest/src/chunked_loader.rs:127-133 | the valid records are all those with a key and a payload that are not empty, in order |
| ChunkedLoader.RunTasks | crates/voltnuerongrid-ingest/src/chunked_loader.rs:116-140 | in whatever order chunks finish, each chunk's result is filed under its index |
| ChunkedLoader.ValidOfConcat | crates/voltnuerongrid-ingest/src/chunked_loader.rs:142-150 | filtering distributes over concatenation |
| ChunkedLoader.LoadRecordsParallel | crates/voltnuerongrid-ingest/src/chunked_loader.rs:100-163 | for every chunk size and every order of tasks the valid records are the in-order filter of the input, and valid and invalid add up |

## Left out

- Query planners, the parser adapter and the analyzer: wrapper nodes, flags and substring heuristics without row semantics.
- ORDER BY, aggregates and the legacy aggregations: they rest on floating point parsing and a comparator that mixes numeric and text order.
- GROUP BY, HAVING, JOIN and subqueries: the evaluator refuses them before a row is read.
- DataFusion planning and execution, and Arrow types other than nullable strings: a batch is a matrix of optional strings.
- Floating point rounding: `increment` adds reals, and a float in a predicate is a real, a negative zero, an infinity or a NaN; parsing, printing and the conversion from integers are parameters.
- Negating the least 64-bit integer: it wraps, as in a release build; a debug build stops instead.
- Counter and identifier overflow: event numbers, log sequence numbers and publishes stay below 2^64; cache counters, deadlines and controller counters are unbounded.
- EventCodec.FieldCountMustFit: the expected field count is computed without wrap-around, so a written count whose double exceeds 64 bits never fits.
- Torn writes: a log append happens completely or not at all; truncating the log is not modelled.
- The external broker and in-memory transports of the event bus, publishing to sinks, and the switch between transports.
- JSON syntax: cache values are numbers or opaque, and a snapshot is a map; a snapshot of another shape is not modelled.
- The eviction policy setting: the code never reads it.
- The controller's decision rules, confidence values and reason strings: a batch carries its decisions already made. A history limit of 0, for which the ring's removal fails, and a poisoned lock are excluded.
- The controller as an object: it is a state machine over atomic steps, so its fields are state components and not class fields.
- The accumulating loader object and the multi-sheet loader: they only call the loaders modelled here.
- Connectors for CSV, JSON, Excel and Parquet, sharding, metadata tables, plugin checksums, failover, drivers and user interfaces.
- CacheManager.DistributedCacheManager.SetIn: partitions are values owned by the manager and not separate objects, so aliasing between partitions is not modelled.
- CursorStore.WalStoreRefinesMap: runs are shorter than 2^64 - 2 operations.
- EventBus.RunMatchesHistory: runs are shorter than 2^64 - 2 operations, as is the history in EventBus.CrashRecovery.
- ThreeValued.TrustedIsExact: one way only; a predicate can also be right about a row by coincidence, when a wrong atom is masked by another one. The converse over all rows is ReadOnce.ExactIffUpright, for conditions whose atoms read distinct columns.
- ReadOnce.ExactIffUpright: values are read as the evaluator reads them. It does not cover atoms that read the row key, atoms that no row makes true or no row makes false, LIKE of a column against itself, or a column read by two atoms, where one occurrence can mask the other.
- Readings.AgreesWithSql: values that are alike are compared as the evaluator compares them, also across kinds, where SQL-92 has no comparison.
- Controller.SnapshotFitsExactlyWhen: assumes that all threads see one order of counter updates; relaxed loads of two counters may show another one.
- Predicate.ChainsExactlyWhen: floats against texts and booleans are not included, because what a float prints is a parameter.
- Select.SelectRows: ORDER BY of the row path is not modelled.
- Delivery.InOrderExactlyWhen: lists of logged events; a made-up event could be appended later and then be in its place. Delivery.StepKeepsOrder covers every list.
- Columnar.SyntheticKeysDistinct: covers results without a key column; a made-up key for a null key cell could equal a stored key.
