# Binlog query indexer: parser core

This project models the core of a MariaDB binlog parser. The parser reads a
binlog file held in memory and turns its events into the SQL statements the
file records. Each statement comes with its sources (database and table), its
statement type, its text (truncated when long) and the byte offsets of the
events it came from.

The model has four parts, in the parser's own terms.

- **Header indexer** (`header_index.dfy`, `BinlogParser.Open`). It checks the
  4-byte magic number FE 62 69 6E, then walks the chain of 19-byte event
  headers from offset 4. Each header's `next_event_position` says where the
  next one sits. The walk stops at a zero next position or where no whole
  header fits. `ParseHeaders` is the indexing loop. It is proved to return the
  unique complete chain of the data, or to report the chain revisiting a
  position, which is exactly when the source's loop would never end.
- **Body decoders** (`events.dfy`, `bytes.dfy`). The header, table-map,
  query-event and annotate-rows layouts are read at the same offsets and with
  the same little-endian widths as the source. Python slices clip, and the
  model says so explicitly (`Slice`). Bytes become characters by the Latin-1
  identity. Each decoder has an encoder beside it and a round-trip lemma.
- **Statement classifier** (`sql_text.dfy`). `TypeOfQuery` compares a 6-, 7-
  and 10-character prefix, ignoring ASCII case. It uses the DDL pattern with
  its word boundary and the TCL pattern, whose empty alternative always
  matches.
- **Correlator** (`correlator.dfy`, `binlog_parser.dfy`). `_parse_event` is one
  step over the header list, a cursor and the `table_id → (db, table)` cache.
  Query events yield one statement each, except TCL. AnnotateRows events use
  lookahead: they read the table-map events that follow into the cache, take
  the statement type from the rows event right after them, and skip the run of
  rows events. `parse_queries` repeats the step until the headers run out.
  The pure functions `Step` and `ParseFrom` state what one step and a whole
  run do. The class `BinlogParser` runs the same steps with a mutable cursor
  and cache, and each of its methods is proved equal to the matching function.
  The decoders are pure, so the functions read every event body decoded up
  front (`DecodeBodies`). The methods decode a body only when they reach it,
  as the source does.

`Query.__init__` truncates texts longer than 500 characters to their first
200 characters, `"..."` and their last 300. This is `NewQuery`.

Three points of the code are easy to misread, and the model follows the code
in each.

- **TCL classification.** The TCL pattern at utils.py:43 ends with an empty
  alternative, `^(\bCOMMIT\b|\bROLLBACK\b|)`, so it matches every text. Every
  text of six or more characters that no earlier test catches is therefore
  TCL, not only COMMIT and ROLLBACK. Only texts shorter than six characters
  get no type (`EveryOtherTextIsTcl`, `TypeOfQuery`).
- **Cursor after the lookahead.** The AnnotateRows branch moves the cursor
  onto each table-map and rows event it consumes and then clears
  `move_to_next_header` (parser.py:281, parser.py:302). The cursor stays on the
  last event consumed, and the next step skips that event through its own
  branch (`AnnotateRowsStepRule`).
- **Event length and next positions.** The header walk at parser.py:226-238
  checks neither that `event_length` is at least 19 nor that the next position
  lies after the current one. The model checks neither. A body whose length
  field is below 19 is read through clipping slices, as Python does, and a
  chain that comes back to a visited position is reported (`ParseHeaders`).

## Model

| member | source | states |
|---|---|---|
| Bytes.LittleEndianOfEncoding | parser.py:24-28 | reading back a little-endian encoding of n in `width` bytes gives n |
| Bytes.EncodingOfLittleEndian | parser.py:24-28 | re-encoding the little-endian value of a byte string gives the same bytes |
| Bytes.Slice | parser.py:48-55 | Python slicing: the exact sub-sequence when the bounds are in range, the rest from start when stop runs past the end, empty when start is at or past the end or stop ≤ start, never longer than stop − start |
| Bytes.Latin1 | parser.py:48 | Latin-1 decoding maps each byte to the character with the same code, keeping the length |
| Bytes.Latin1RoundTrip | parser.py:48 | decoding the Latin-1 bytes of a Latin-1 text gives the text back |
| SqlText.TypeOfQuery | utils.py:46-65 | none exactly when the text is shorter than 6; a DML type only when the first 6 characters equal its keyword ignoring case; REPLACE exactly when no DML keyword leads and the first 7 characters are REPLACE ignoring case; DDL exactly when no earlier test matched and the 10-character window starts with a DDL keyword at a word boundary |
| SqlText.TypeOfQueryReadsTenCharacters | utils.py:52-62 | two texts with the same first 10 characters get the same type |
| SqlText.TypeOfQueryIgnoresCase | utils.py:52-62 | upper-casing a text does not change its type |
| SqlText.EveryOtherTextIsTcl | utils.py:43-65 | a text of 6 or more characters that is not DML, not REPLACE and not DDL is TCL, whatever its words |
| SqlText.ShortTextExample | utils.py:49-50 | "BEGIN" (5 characters) has no type |
| SqlText.DmlExample | utils.py:52-54 | "insert into t" is INSERT |
| SqlText.DdlExample | utils.py:38-61 | "drop table t" is DDL |
| SqlText.KeywordBoundaryExample | utils.py:38-43 | "LOCKS t" is not DDL, because LOCK is not followed by a word boundary, so it falls through to TCL |
| Events.DecodeHeader | parser.py:22-28 | the header keeps its position, its type is byte 4, and its timestamp, length and next position are 32-bit values |
| Events.HeaderRoundTrip | parser.py:24-28 | decoding an encoded header (timestamp at bytes 0-3, type at 4, length at 9-12, next position at 13-16) gives the header back |
| Events.HeaderEncodingOfDecode | parser.py:24-28 | decoding 19 bytes and encoding again, with the ignored bytes 5-8 and 17-18 put back, gives the same bytes |
| Events.DecodeTableMap | parser.py:45-55 | fails exactly when the body is too short for the fixed reads at 8 and 10+db_len; otherwise the id is the little-endian value of the first 6 bytes, the database is the db_len bytes from 9 and the table is the clipped table_len bytes from 11+db_len |
| Events.TableMapRoundTrip | parser.py:45-55 | decoding an encoded table-map body gives back its id, database and table |
| Events.DecodeQueryEvent | parser.py:98-121 | fails exactly when the body is shorter than 13 bytes; otherwise the text is the body from 13+status_len+db_len+1 to 4 bytes before the end, the type is the classifier's, and the database is the classifier's schema when non-empty and the header's name otherwise |
| Events.QueryEventRoundTrip | parser.py:98-121 | decoding an encoded query-event body gives back its text, its offsets, its type and its database name |
| Events.DecodeAnnotateRows | parser.py:70-83 | the text is the body without its last 4 bytes (clipped as Python does for shorter bodies), and type, database and table come from the classifier |
| Events.AnnotateRowsRoundTrip | parser.py:70-75 | a text followed by a 4-byte checksum decodes to the text |
| Events.NewQuery | parser.py:134-160 | texts over 500 characters are stored as the first 200, "..." and the last 300 and flagged truncated; shorter texts are stored unchanged; every other field is stored as passed |
| Events.TruncationIsIdempotent | parser.py:151-155 | storing a stored text again leaves it unchanged |
| Events.TruncationBoundary | parser.py:153-155 | a 700-character text is stored as 503 characters, a 500-character text is not truncated |
| HeaderIndex.HeaderAt | parser.py:228 | the header read at a position records that position and the type byte found there |
| HeaderIndex.ParseHeaders | parser.py:219-240 | the result is a complete chain (first header at 4, each at its predecessor's next position, each fitting in the data, stopping at a zero next position or the end) with distinct positions, or a report that the chain comes back to a visited position |
| HeaderIndex.ChainIsDetermined | parser.py:226-238 | the data determines the chain: of two chain prefixes, the shorter starts the longer |
| HeaderIndex.CompleteChainIsUnique | parser.py:226-240 | a binlog has at most one complete header chain |
| HeaderIndex.ChainStopsOnlyAtEnd | parser.py:235-236 | the walk does not stop before the end of a longer chain |
| HeaderIndex.CycleNeverEnds | parser.py:226-238 | a chain that revisits a position can be extended by any number of headers, so the source's loop never ends on it |
| HeaderIndex.CycleHasNoCompleteChain | parser.py:226-238 | data whose chain revisits a position has no complete chain |
| HeaderIndex.ForwardChainIncreases | parser.py:238 | when every non-zero next position lies beyond its own header, positions strictly increase along the chain |
| HeaderIndex.ForwardChainNeverCycles | parser.py:226-238 | such a chain never revisits a position, so the walk ends |
| Correlator.Body | parser.py:334-335 | `_get_body`: the bytes from position+19 up to position+event_length when they lie inside the data, the bytes from position+19 to the end when the event runs past it, and nothing when the header ends the data |
| Correlator.DecodeBodiesEntry | parser.py:251-274 | entry k of the decoded list is header k's body decoded |
| Correlator.QueryEventStep | parser.py:250-265 | a query event whose body decodes advances one header and leaves the cache alone; one that does not decode fails on the spot |
| Correlator.QueryEventStepAsWritten | parser.py:250-265 | as written, the branch can succeed only by yielding nothing (a TCL statement) |
| Correlator.TableMapsOf | parser.py:271-274 | each entry is the decoded table map of a table-map event, and nothing for other events |
| Correlator.ScanTableMaps | parser.py:270-281 | the first lookahead loop stays within the headers, records one id per event consumed, and only records ids it has cached |
| Correlator.SkipRows | parser.py:295-302 | the second lookahead loop consumes exactly the maximal run of rows events after its start |
| Correlator.RowsType | parser.py:283-290 | the rows event right after the table maps fixes INSERT, UPDATE or DELETE; any other event fixes nothing |
| Correlator.CachedSources | parser.py:305-309 | the sources are the cached (database, table) of each id read, in order |
| Correlator.AnnotateRowsFinish | parser.py:283-330 | after the table maps the branch always succeeds, moves the cursor forward and leaves the cache alone |
| Correlator.AnnotateRowsStep | parser.py:267-330 | the AnnotateRows branch moves the cursor forward when it succeeds, and stays within the headers when the lookahead fails |
| Correlator.Step | parser.py:242-332 | every successful step moves the cursor forward by at least one header, so `parse_queries` ends |
| Correlator.ParseFrom | parser.py:198-202 | a run ends with the cursor at the end of the headers, or before it with the error of the failing step |
| Correlator.SkippedEventsEmitNothing | parser.py:243-245 | events of other types, and table-map or rows events met at the cursor, advance exactly one header and yield nothing |
| Correlator.QueryEventStepRule | parser.py:250-265 | a query event yields nothing exactly when its type is TCL; otherwise one statement built by `NewQuery` from the event's text (so truncated exactly when the text exceeds 500 characters), with the single source (db, table), the text offsets plus position plus 19, and its own end as related end |
| Correlator.QueryEventAsWrittenRaises | parser.py:254-265 | every non-TCL query event makes the as-written branch fail, where the corrected step yields a statement |
| Correlator.QueryEventAsWrittenExample | parser.py:254-265 | a query event with text "insert into t" makes the as-written branch fail |
| Correlator.ScanTableMapsIds | parser.py:271-281 | the lookahead consumes table-map events that decode and records their ids in order |
| Correlator.ScanTableMapsEnd | parser.py:271-274 | the lookahead fails exactly when a table-map event follows the run and its body does not decode, and it reports that event |
| Correlator.ScanTableMapsKeys | parser.py:275-278 | after the lookahead the cache holds its old ids plus the ids of the run |
| Correlator.ScanTableMapsLastWins | parser.py:275-278 | each id of the run is cached with the names of the last table-map event of the run carrying it |
| Correlator.ScanTableMapsUntouched | parser.py:275-278 | ids that the run does not carry keep their cached names |
| Correlator.SourcesFollowLastTableMap | parser.py:275-309 | the source for each table map read is the names of the last table-map event of the run with the same id |
| Correlator.AnnotateRowsRuns | parser.py:270-302 | a successful lookahead consumes the maximal run of decodable table maps, then the maximal run of rows events |
| Correlator.AnnotateRowsStepRule | parser.py:267-330 | a successful AnnotateRows step: the rows type, or else the classifier's; the annotation's own source when no table map was read, or else the cached ones; the statement built by `NewQuery` from the annotation's text (truncated exactly when it exceeds 500 characters); related end at the last event consumed; nothing yielded exactly when there is no type (TCL is yielded); the cursor on the last event consumed, or one past the event when nothing was consumed |
| Correlator.AnnotateRowsFailsInLookahead | parser.py:270-281 | the AnnotateRows step fails only through its lookahead, and stops where the lookahead stopped |
| Correlator.AnnotateRowsFailure | parser.py:271-274 | a failing AnnotateRows step leaves the cursor before an undecodable table-map event and reports that event |
| Correlator.StepMadeBy | parser.py:250-327 | a step yields a statement only for a non-TCL query event (one source) or an AnnotateRows event with a type (at least one source) |
| Correlator.ParseFromProvenance | parser.py:198-202 | every statement of a run comes from its own event at or after the starting cursor, in header order |
| Binlog.BinlogParser.Open | parser.py:188-196 | fails with an invalid-binlog error exactly when the magic number is missing; with the magic it succeeds whenever the data has a complete chain, and otherwise reports the visited position the chain comes back to; on success the parser holds the complete chain with the cursor at 0 and an empty cache |
| Binlog.BinlogParser.CurrentHeader | parser.py:204-208 | the header under the cursor, or none past the end |
| Binlog.BinlogParser.NextHeader | parser.py:210-214 | the header after the cursor, or none |
| Binlog.BinlogParser.MoveToNextHeader | parser.py:216-217 | the cursor moves one header on |
| Binlog.BinlogParser.QueryEventAt | parser.py:251 | decodes a header's body as a query event |
| Binlog.BinlogParser.AnnotateRowsAt | parser.py:268 | decodes a header's body as an annotation |
| Binlog.BinlogParser.TableMapAt | parser.py:272-274 | decodes a header's body as a table map |
| Binlog.BinlogParser.ParseQueryEvent | parser.py:250-265 | performs `QueryEventStep` on the parser's state |
| Binlog.BinlogParser.ReadTableMaps | parser.py:270-281 | the first lookahead loop leaves the cursor, cache, ids and error that `ScanTableMaps` describes |
| Binlog.BinlogParser.SkipRowsEvents | parser.py:295-302 | the second lookahead loop leaves the cursor where `SkipRows` says |
| Binlog.BinlogParser.SourcesOf | parser.py:305-309 | builds `CachedSources` of the ids read |
| Binlog.BinlogParser.FinishAnnotateRows | parser.py:283-330 | performs `AnnotateRowsFinish` on the parser's state |
| Binlog.BinlogParser.ParseAnnotateRows | parser.py:267-330 | performs `AnnotateRowsStep` on the parser's state |
| Binlog.BinlogParser.ParseEvent | parser.py:242-332 | performs `Step` on the parser's state and keeps the parser valid |
| Binlog.BinlogParser.ParseQueries | parser.py:198-202 | yields the statements of `ParseFrom` from the parser's state, leaves the error, cursor and cache it describes, and keeps the parser valid |

## Left out

- File reading, the command-line indexer and the SQLite models (`indexer.py`, `models.py`) are not part of this model. They are I/O and database calls.
- `parse_db_table_name_from_query` is a wrapper over Python's regular-expression engine. The model takes it as a function parameter `extract` and assumes nothing about its results.
- The `__repr__` methods are debug formatting and are not modelled.
- `parse_queries` is a lazy generator. The model returns the whole sequence of statements it would yield, together with how it ends.
- Python's exception types and messages are reduced to `ParseError` values. `ValueError` for a bad magic number becomes `InvalidBinlog`. A `struct.error` on a short body becomes `MalformedBody`. The `TypeError` of the query-event branch becomes `UnexpectedKeyword`.
- Binlog.BinlogParser.Open: where the header chain comes back to a position it has visited, the source loops forever. The model instead returns `HeaderCycle` and proves that such a chain never ends.
- `str.upper` beyond Latin-1 is not modelled. `TypeOfQuery` upper-cases ASCII letters only. For Latin-1 text this agrees with Python on the keywords compared, because the one Latin-1 letter whose upper case changes length (ß) can never match an ASCII keyword.
- The source decodes a body when the walk reaches it. The pure functions read the bodies decoded up front (`DecodeBodies`), which is equivalent because the decoders are pure. The class methods decode lazily.
- `_parse_event` is split into one method per branch, and the AnnotateRows branch into its lookahead (`ReadTableMaps`) and the rest (`FinishAnnotateRows`). The `move_to_next_header` flag of the source becomes the test "did the cursor move", which is what the flag records.

## Findings

| source | as written | input that shows it | evidently intended | confidence | as-written member | corrected member |
|---|---|---|---|---|---|---|
| parser.py:254-265 | the query-event branch calls `Query(database=..., table=..., ...)`, but `Query.__init__` takes `sources` and no `database` or `table` keywords, so the call raises `TypeError` | a query event whose text is "insert into t" (every query event whose text is not TCL raises, including texts shorter than 6 characters, which get no type: "BEGIN", which opens every transaction, is one) | yield a statement with the single source `(event.db, event.table)`, as the AnnotateRows branch does with its sources list | not executed | Correlator.QueryEventAsWrittenRaises | Correlator.QueryEventStepRule |
