/**
 * The stream correlator of parser.py (`BinlogParser._parse_event` and
 * `parse_queries`) as pure functions over the header list, the decoded event
 * bodies, a cursor and the table-id cache. `Step` is one call of
 * `_parse_event`; `ParseFrom` is the whole `parse_queries` loop. The class in
 * binlog_parser.dfy runs the same steps imperatively and is proved equal to
 * these functions.
 *
 * The source decodes a body when the walk reaches it; the decoders are pure,
 * so the model decodes every body up front (`DecodeBodies`) and the steps
 * read the decoding their branch needs.
 */
module Correlator {
  import opened Wrappers
  import opened Bytes
  import opened SqlText
  import opened Events

  /** The table-map cache: table id to (database, table). */
  type Cache = map<nat, (string, string)>

  /** `_get_body`: the bytes after the header up to the event's end, clipped to the data. */
  function Body(data: seq<byte>, h: EventHeader): (body: seq<byte>)
    ensures h.eventLength >= HeaderSize && h.position + h.eventLength <= |data|
            ==> body == data[h.position + HeaderSize..h.position + h.eventLength]
    ensures h.eventLength >= HeaderSize && h.position + HeaderSize <= |data| < h.position + h.eventLength
            ==> body == data[h.position + HeaderSize..]
    ensures |data| <= h.position + HeaderSize ==> body == []
    ensures |body| <= if h.eventLength < HeaderSize then 0 else h.eventLength - HeaderSize
  {
    Slice(data, h.position + HeaderSize, h.position + h.eventLength)
  }

  /** Where one step leaves the cursor and the cache, and what it yields or why it failed. */
  datatype StepResult = StepResult(cursor: nat, cache: Cache, outcome: Result<Option<Query>, ParseError>)

  /** A body read as each of the event kinds the parser decodes; a step reads the one its branch needs. */
  datatype DecodedBody = DecodedBody(
    asQueryEvent: Result<QueryEventData, DecodeError>,
    asAnnotateRows: AnnotateRowsEventData,
    asTableMap: Result<TableMapEventData, DecodeError>)

  /** `_get_body` of the header, decoded by `QueryEventData`, `AnnotateRowsEventData` and `TableMapEventData`. */
  function DecodeBody(data: seq<byte>, h: EventHeader, extract: DbTableExtractor): DecodedBody
  {
    var body := Body(data, h);
    DecodedBody(DecodeQueryEvent(body, extract), DecodeAnnotateRows(body, extract), DecodeTableMap(body))
  }

  /** The bodies of the first n headers, decoded. */
  function DecodeBodiesUpTo(data: seq<byte>, headers: seq<EventHeader>, extract: DbTableExtractor, n: nat): (bodies: seq<DecodedBody>)
    requires n <= |headers|
    ensures |bodies| == n
  {
    if n == 0 then [] else DecodeBodiesUpTo(data, headers, extract, n - 1) + [DecodeBody(data, headers[n - 1], extract)]
  }

  /** Every header's body, decoded. */
  function DecodeBodies(data: seq<byte>, headers: seq<EventHeader>, extract: DbTableExtractor): (bodies: seq<DecodedBody>)
    ensures |bodies| == |headers|
  {
    DecodeBodiesUpTo(data, headers, extract, |headers|)
  }

  lemma {:induction false} DecodeBodiesUpToEntry(data: seq<byte>, headers: seq<EventHeader>, extract: DbTableExtractor, n: nat, k: nat)
    requires k < n <= |headers|
    ensures DecodeBodiesUpTo(data, headers, extract, n)[k] == DecodeBody(data, headers[k], extract)
  {
    if k < n - 1 {
      DecodeBodiesUpToEntry(data, headers, extract, n - 1, k);
    }
  }

  /** Entry k of the decoded list is the decoding of header k's body. */
  lemma DecodeBodiesEntry(data: seq<byte>, headers: seq<EventHeader>, extract: DbTableExtractor, k: nat)
    requires k < |headers|
    ensures DecodeBodies(data, headers, extract)[k] == DecodeBody(data, headers[k], extract)
  {
    DecodeBodiesUpToEntry(data, headers, extract, |headers|, k);
  }

  /** Entry k of the decoded list, read as a query event, is header k's body decoded as one. */
  lemma DecodedQueryEventAt(data: seq<byte>, headers: seq<EventHeader>, extract: DbTableExtractor, k: nat)
    requires k < |headers|
    ensures DecodeBodies(data, headers, extract)[k].asQueryEvent == DecodeQueryEvent(Body(data, headers[k]), extract)
  {
    DecodeBodiesEntry(data, headers, extract, k);
  }

  /** Entry k of the decoded list, read as an annotation, is header k's body decoded as one. */
  lemma DecodedAnnotateRowsAt(data: seq<byte>, headers: seq<EventHeader>, extract: DbTableExtractor, k: nat)
    requires k < |headers|
    ensures DecodeBodies(data, headers, extract)[k].asAnnotateRows == DecodeAnnotateRows(Body(data, headers[k]), extract)
  {
    DecodeBodiesEntry(data, headers, extract, k);
  }

  /** Entry k of the decoded list, read as a table map, is header k's body decoded as one. */
  lemma DecodedTableMapAt(data: seq<byte>, headers: seq<EventHeader>, extract: DbTableExtractor, k: nat)
    requires k < |headers|
    ensures DecodeBodies(data, headers, extract)[k].asTableMap == DecodeTableMap(Body(data, headers[k]))
  {
    DecodeBodiesEntry(data, headers, extract, k);
  }

  // ---------------------------------------------------------------- query events

  /** The QueryEvent branch of `_parse_event`, with the single source the call evidently meant. */
  function QueryEventStep(bodies: seq<DecodedBody>, headers: seq<EventHeader>, cur: nat, cache: Cache): (s: StepResult)
    requires |bodies| == |headers| && cur < |headers|
    ensures s.cache == cache
    ensures s.outcome.Success? <==> bodies[cur].asQueryEvent.Success?
    ensures s.outcome.Success? ==> s.cursor == cur + 1
    ensures s.outcome.Failure? ==> s.cursor == cur
  {
    var h := headers[cur];
    match bodies[cur].asQueryEvent
    case Failure(_) => StepResult(cur, cache, Failure(MalformedBody(h.position, h.eventType)))
    case Success(e) =>
      if e.queryType == Some(Tcl) then StepResult(cur + 1, cache, Success(None))
      else
        var q := NewQuery([Source(Some(e.db), e.table)], h.timestamp, e.queryType, e.query,
                          h.position, h.eventLength,
                          e.queryStart + h.position + HeaderSize, e.queryEnd + h.position + HeaderSize,
                          h.position + h.eventLength);
        StepResult(cur + 1, cache, Success(Some(q)))
  }

  /**
   * The QueryEvent branch as the source writes it: `Query` is called with
   * keywords `database` and `table` that its constructor does not take, so
   * every statement that is not TCL raises before the cursor moves.
   */
  function QueryEventStepAsWritten(bodies: seq<DecodedBody>, headers: seq<EventHeader>, cur: nat, cache: Cache): (s: StepResult)
    requires |bodies| == |headers| && cur < |headers|
    ensures s.outcome.Success? ==> s.outcome == Success(None) && s.cursor == cur + 1
  {
    var h := headers[cur];
    match bodies[cur].asQueryEvent
    case Failure(_) => StepResult(cur, cache, Failure(MalformedBody(h.position, h.eventType)))
    case Success(e) =>
      if e.queryType == Some(Tcl) then StepResult(cur + 1, cache, Success(None))
      else StepResult(cur, cache, Failure(UnexpectedKeyword(h.position)))
  }

  // ---------------------------------------------------------------- annotate rows lookahead

  /** The table-map entry of an event: its decoding, when it is a table-map event whose body decodes. */
  function TableMapOf(body: DecodedBody, h: EventHeader): (t: Option<TableMapEventData>)
    ensures t.Some? <==> h.eventType == TableMapEvent && body.asTableMap.Success?
    ensures t.Some? ==> t.value == body.asTableMap.value
  {
    if h.eventType == TableMapEvent && body.asTableMap.Success? then Some(body.asTableMap.value) else None
  }

  /** Every event's table-map entry: what the lookahead below reads. */
  function TableMapsOf(bodies: seq<DecodedBody>, headers: seq<EventHeader>): (tables: seq<Option<TableMapEventData>>)
    requires |bodies| == |headers|
    ensures |tables| == |headers|
    ensures forall k :: 0 <= k < |headers| ==> tables[k] == TableMapOf(bodies[k], headers[k])
  {
    seq(|headers|, k requires 0 <= k < |headers| => TableMapOf(bodies[k], headers[k]))
  }

  /** How far the table-map lookahead got: the cursor, the cache, the ids read, and a decode failure. */
  datatype TableMapScan = TableMapScan(last: nat, cache: Cache, ids: seq<nat>, error: Option<ParseError>)

  /**
   * The first lookahead loop of the AnnotateRows branch: while the next header
   * is a table-map event, decode it, upsert its id into the cache, remember the
   * id and move the cursor onto it. `tables` holds each header's decoded entry.
   */
  function ScanTableMaps(tables: seq<Option<TableMapEventData>>, headers: seq<EventHeader>, i: nat, cache: Cache,
                         ids: seq<nat>): (s: TableMapScan)
    requires |tables| == |headers| && i < |headers|
    requires forall id :: id in ids ==> id in cache
    ensures i <= s.last < |headers|
    ensures |s.ids| == |ids| + (s.last - i)
    ensures forall id :: id in s.ids ==> id in s.cache
    decreases |headers| - i
  {
    if i + 1 < |headers| && headers[i + 1].eventType == TableMapEvent then
      match tables[i + 1]
      case None => TableMapScan(i, cache, ids, Some(MalformedBody(headers[i + 1].position, TableMapEvent)))
      case Some(t) => ScanTableMaps(tables, headers, i + 1, cache[t.tableId := (t.db, t.table)], ids + [t.tableId])
    else TableMapScan(i, cache, ids, None)
  }

  /** The second lookahead loop: move the cursor onto every following rows event. */
  function SkipRows(headers: seq<EventHeader>, i: nat): (last: nat)
    requires i < |headers|
    ensures i <= last < |headers|
    ensures forall k :: i < k <= last ==> IsRowsEvent(headers[k].eventType)
    ensures last + 1 == |headers| || !IsRowsEvent(headers[last + 1].eventType)
    decreases |headers| - i
  {
    if i + 1 < |headers| && IsRowsEvent(headers[i + 1].eventType) then SkipRows(headers, i + 1) else i
  }

  /** The statement type fixed by a rows event right after position i. */
  function RowsType(headers: seq<EventHeader>, i: nat): (t: Option<StatementType>)
    ensures t.Some? <==> i + 1 < |headers| && IsRowsEvent(headers[i + 1].eventType)
    ensures t == Some(Insert) <==> i + 1 < |headers| && headers[i + 1].eventType == WriteRowsV1Event
    ensures t == Some(Update) <==> i + 1 < |headers| && headers[i + 1].eventType == UpdateRowsV1Event
    ensures t == Some(Delete) <==> i + 1 < |headers| && headers[i + 1].eventType == DeleteRowsV1Event
  {
    if i + 1 < |headers| then
      var t := headers[i + 1].eventType;
      if t == WriteRowsV1Event then Some(Insert)
      else if t == UpdateRowsV1Event then Some(Update)
      else if t == DeleteRowsV1Event then Some(Delete)
      else None
    else None
  }

  /** The cached (database, table) of each id, in order. */
  function CachedSources(cache: Cache, ids: seq<nat>): (sources: seq<Source>)
    requires forall id :: id in ids ==> id in cache
    ensures |sources| == |ids|
    ensures forall j :: 0 <= j < |ids| ==>
              sources[j] == Source(Some(cache[ids[j]].0), Some(cache[ids[j]].1))
  {
    if ids == [] then []
    else
      var id := ids[|ids| - 1];
      CachedSources(cache, ids[..|ids| - 1]) + [Source(Some(cache[id].0), Some(cache[id].1))]
  }

  /**
   * The AnnotateRows branch after its table-map lookahead ended at tmEnd: the
   * type comes from a rows event right after the table maps, else from the
   * annotation; the rows events are skipped; the query takes the cached names
   * of the ids read, or the annotation's own guess when there are none.
   */
  function AnnotateRowsFinish(a: AnnotateRowsEventData, headers: seq<EventHeader>, cur: nat, tmEnd: nat, cache: Cache,
                              ids: seq<nat>): (s: StepResult)
    requires cur <= tmEnd < |headers|
    requires forall id :: id in ids ==> id in cache
    ensures s.outcome.Success? && cur < s.cursor <= |headers| && s.cache == cache
  {
    var h := headers[cur];
    var queryType := if RowsType(headers, tmEnd).Some? then RowsType(headers, tmEnd) else a.queryType;
    var last := SkipRows(headers, tmEnd);
    var result :=
      if queryType.None? then None
      else
        var sources := if ids == [] then [Source(a.db, a.table)] else CachedSources(cache, ids);
        Some(NewQuery(sources, h.timestamp, queryType, a.query, h.position, h.eventLength,
                      a.queryStart + h.position + HeaderSize, a.queryEnd + h.position + HeaderSize,
                      headers[last].position + headers[last].eventLength));
    StepResult(if last == cur then cur + 1 else last, cache, Success(result))
  }

  /** The AnnotateRows branch of `_parse_event`. */
  function AnnotateRowsStep(bodies: seq<DecodedBody>, headers: seq<EventHeader>, cur: nat, cache: Cache): (s: StepResult)
    requires |bodies| == |headers| && cur < |headers|
    ensures s.outcome.Success? ==> cur < s.cursor <= |headers|
    ensures s.outcome.Failure? ==> cur <= s.cursor < |headers|
  {
    var scan := ScanTableMaps(TableMapsOf(bodies, headers), headers, cur, cache, []);
    if scan.error.Some? then StepResult(scan.last, scan.cache, Failure(scan.error.value))
    else AnnotateRowsFinish(bodies[cur].asAnnotateRows, headers, cur, scan.last, scan.cache, scan.ids)
  }

  // ---------------------------------------------------------------- one step, the whole run

  /** `_parse_event` on the header at the cursor. */
  function Step(bodies: seq<DecodedBody>, headers: seq<EventHeader>, cur: nat, cache: Cache): (s: StepResult)
    requires |bodies| == |headers| && cur < |headers|
    ensures s.outcome.Success? ==> cur < s.cursor <= |headers|
    ensures s.outcome.Failure? ==> cur <= s.cursor < |headers|
  {
    var t := headers[cur].eventType;
    if t !in AllowedEventTypes then StepResult(cur + 1, cache, Success(None))
    else if t == QueryEvent then QueryEventStep(bodies, headers, cur, cache)
    else if t == AnnotateRowsEvent then AnnotateRowsStep(bodies, headers, cur, cache)
    else StepResult(cur + 1, cache, Success(None))
  }

  /** What `parse_queries` yields before it ends or raises, and the state it leaves. */
  datatype ParseRun = ParseRun(queries: seq<Query>, error: Option<ParseError>, cursor: nat, cache: Cache)

  /** `parse_queries`: step from the cursor until it runs off the header list or a step fails. */
  function ParseFrom(bodies: seq<DecodedBody>, headers: seq<EventHeader>, cur: nat, cache: Cache): (r: ParseRun)
    requires |bodies| == |headers| && cur <= |headers|
    ensures r.error.None? ==> r.cursor == |headers|
    ensures r.error.Some? ==> r.cursor < |headers|
    decreases |headers| - cur
  {
    if cur == |headers| then ParseRun([], None, cur, cache)
    else
      var s := Step(bodies, headers, cur, cache);
      match s.outcome
      case Failure(e) => ParseRun([], Some(e), s.cursor, s.cache)
      case Success(q) =>
        var rest := ParseFrom(bodies, headers, s.cursor, s.cache);
        ParseRun((if q.Some? then [q.value] else []) + rest.queries, rest.error, rest.cursor, rest.cache)
  }
  /** The queries of a run split at a step: those before it, the step's own, those after it. */
  lemma QueriesAppend(before: seq<Query>, yielded: seq<Query>, later: seq<Query>)
    ensures before + (yielded + later) == (before + yielded) + later
  {
  }

  /** One iteration of `parse_queries`. */
  lemma ParseFromStep(bodies: seq<DecodedBody>, headers: seq<EventHeader>, cur: nat, cache: Cache)
    requires |bodies| == |headers| && cur < |headers|
    ensures var s := Step(bodies, headers, cur, cache);
            var r := ParseFrom(bodies, headers, cur, cache);
            if s.outcome.Failure? then r == ParseRun([], Some(s.outcome.error), s.cursor, s.cache)
            else
              var rest := ParseFrom(bodies, headers, s.cursor, s.cache);
              r == ParseRun((if s.outcome.value.Some? then [s.outcome.value.value] else []) + rest.queries,
                            rest.error, rest.cursor, rest.cache)
  {
  }

  // ---------------------------------------------------------------- step rules

  /** Unrecognised events, and table-map or rows events met at the cursor, are skipped one by one. */
  lemma SkippedEventsEmitNothing(bodies: seq<DecodedBody>, headers: seq<EventHeader>, cur: nat, cache: Cache)
    requires |bodies| == |headers| && cur < |headers|
    requires headers[cur].eventType != QueryEvent && headers[cur].eventType != AnnotateRowsEvent
    ensures Step(bodies, headers, cur, cache) == StepResult(cur + 1, cache, Success(None))
  {
  }

  /**
   * A query event advances one header; it yields nothing for TCL and otherwise
   * one query with a single source, absolute text offsets (body offsets plus
   * the position plus the 19 header bytes), and its own end as related end.
   */
  lemma QueryEventStepRule(bodies: seq<DecodedBody>, headers: seq<EventHeader>, cur: nat, cache: Cache)
    requires |bodies| == |headers| && cur < |headers| && headers[cur].eventType == QueryEvent
    requires bodies[cur].asQueryEvent.Success?
    ensures var h := headers[cur];
            var e := bodies[cur].asQueryEvent.value;
            var s := Step(bodies, headers, cur, cache);
            && s.cursor == cur + 1 && s.cache == cache && s.outcome.Success?
            && (s.outcome.value.None? <==> e.queryType == Some(Tcl))
            && (s.outcome.value.Some? ==>
                  var q := s.outcome.value.value;
                  && q.sources == [Source(Some(e.db), e.table)]
                  && q.queryType == e.queryType && q.timestamp == h.timestamp
                  && q.eventStart == h.position && q.eventLength == h.eventLength
                  && q.queryStart == e.queryStart + h.position + HeaderSize
                  && q.queryEnd == e.queryEnd + h.position + HeaderSize
                  && q.relatedEventsEndPos == h.position + h.eventLength
                  && q == NewQuery([Source(Some(e.db), e.table)], h.timestamp, e.queryType, e.query,
                                   h.position, h.eventLength, q.queryStart, q.queryEnd, q.relatedEventsEndPos)
                  && (q.isTruncated <==> |e.query| > TruncateAbove))
  {
  }

  /** As written, every query event that is not TCL stops the parse; the corrected step yields a query. */
  lemma QueryEventAsWrittenRaises(bodies: seq<DecodedBody>, headers: seq<EventHeader>, cur: nat, cache: Cache)
    requires |bodies| == |headers| && cur < |headers| && headers[cur].eventType == QueryEvent
    requires bodies[cur].asQueryEvent.Success?
    requires bodies[cur].asQueryEvent.value.queryType != Some(Tcl)
    ensures QueryEventStepAsWritten(bodies, headers, cur, cache).outcome
            == Failure(UnexpectedKeyword(headers[cur].position))
    ensures Step(bodies, headers, cur, cache).outcome.Success?
    ensures Step(bodies, headers, cur, cache).outcome.value.Some?
  {
  }

  /** A concrete event the as-written branch rejects: a query event whose text is "insert into t". */
  lemma QueryEventAsWrittenExample(data: seq<byte>, headers: seq<EventHeader>, cur: nat, cache: Cache,
                                   extract: DbTableExtractor, threadAndTime: seq<byte>, errorCode: seq<byte>,
                                   db: seq<byte>, checksum: seq<byte>)
    requires |threadAndTime| == 8 && |errorCode| == 2 && |checksum| == 4 && |db| < 256
    requires cur < |headers| && headers[cur].eventType == QueryEvent
    requires Body(data, headers[cur])
             == EncodeQueryEventBody(threadAndTime, errorCode, [], db, Latin1Bytes("insert into t"), checksum)
    ensures QueryEventStepAsWritten(DecodeBodies(data, headers, extract), headers, cur, cache).outcome
            == Failure(UnexpectedKeyword(headers[cur].position))
    ensures Step(DecodeBodies(data, headers, extract), headers, cur, cache).outcome.Success?
    ensures Step(DecodeBodies(data, headers, extract), headers, cur, cache).outcome.value.Some?
  {
    var text := "insert into t";
    Latin1RoundTrip(text);
    QueryEventRoundTrip(threadAndTime, errorCode, [], db, Latin1Bytes(text), checksum, extract);
    DmlExample();
    DecodedQueryEventAt(data, headers, extract, cur);
    QueryEventAsWrittenRaises(DecodeBodies(data, headers, extract), headers, cur, cache);
  }

  // ---------------------------------------------------------------- the lookahead runs

  /** One step of the table-map lookahead. */
  lemma ScanTableMapsUnfold(tables: seq<Option<TableMapEventData>>, headers: seq<EventHeader>, i: nat, cache: Cache, ids: seq<nat>)
    requires |tables| == |headers| && i < |headers|
    requires forall id :: id in ids ==> id in cache
    ensures var s := ScanTableMaps(tables, headers, i, cache, ids);
            var more := i + 1 < |headers| && headers[i + 1].eventType == TableMapEvent;
            if more && tables[i + 1].Some? then
              var t := tables[i + 1].value;
              s == ScanTableMaps(tables, headers, i + 1, cache[t.tableId := (t.db, t.table)], ids + [t.tableId])
            else
              s == TableMapScan(i, cache, ids, if more then Some(MalformedBody(headers[i + 1].position, TableMapEvent)) else None)
  {
  }

  /**
   * The table-map lookahead consumes the maximal run of table-map events after
   * i that decode, recording their ids in order after the ones it was given.
   */
  lemma {:induction false} ScanTableMapsIds(tables: seq<Option<TableMapEventData>>, headers: seq<EventHeader>, i: nat, cache: Cache, ids: seq<nat>)
    requires |tables| == |headers| && i < |headers|
    requires forall id :: id in ids ==> id in cache
    ensures var s := ScanTableMaps(tables, headers, i, cache, ids);
            && s.ids[..|ids|] == ids
            && (forall k :: i < k <= s.last ==>
                  tables[k].Some? && s.ids[|ids| + (k - i - 1)] == tables[k].value.tableId)
    decreases |headers| - i
  {
    ScanTableMapsUnfold(tables, headers, i, cache, ids);
    if i + 1 < |headers| && headers[i + 1].eventType == TableMapEvent && tables[i + 1].Some? {
      var t := tables[i + 1].value;
      var ids' := ids + [t.tableId];
      var s := ScanTableMaps(tables, headers, i + 1, cache[t.tableId := (t.db, t.table)], ids');
      ScanTableMapsIds(tables, headers, i + 1, cache[t.tableId := (t.db, t.table)], ids');
      assert s.ids[..|ids|] == ids by {
        assert s.ids[..|ids|] == s.ids[..|ids'|][..|ids|];
      }
      forall k | i < k <= s.last
        ensures tables[k].Some? && s.ids[|ids| + (k - i - 1)] == tables[k].value.tableId
      {
        if k == i + 1 {
          assert s.ids[|ids|] == s.ids[..|ids'|][|ids|];
        }
      }
    }
  }

  /** The lookahead fails exactly when its run is cut short by a table-map event whose body does not decode. */
  lemma {:induction false} ScanTableMapsEnd(tables: seq<Option<TableMapEventData>>, headers: seq<EventHeader>, i: nat, cache: Cache, ids: seq<nat>)
    requires |tables| == |headers| && i < |headers|
    requires forall id :: id in ids ==> id in cache
    ensures var s := ScanTableMaps(tables, headers, i, cache, ids);
            && (s.error.None? <==> !(s.last + 1 < |headers| && headers[s.last + 1].eventType == TableMapEvent))
            && (s.error.Some? ==>
                  && tables[s.last + 1].None?
                  && s.error == Some(MalformedBody(headers[s.last + 1].position, TableMapEvent)))
    decreases |headers| - i
  {
    ScanTableMapsUnfold(tables, headers, i, cache, ids);
    var more := i + 1 < |headers| && headers[i + 1].eventType == TableMapEvent;
    if more && tables[i + 1].Some? {
      var t := tables[i + 1].value;
      ScanTableMapsEnd(tables, headers, i + 1, cache[t.tableId := (t.db, t.table)], ids + [t.tableId]);
    } else if more {
      var s := ScanTableMaps(tables, headers, i, cache, ids);
      assert s.last == i && s.error == Some(MalformedBody(headers[i + 1].position, TableMapEvent));
    }
  }

  /** No table-map event in (i, last] decodes to this id. */
  ghost predicate IdNotIn(tables: seq<Option<TableMapEventData>>, i: nat, last: nat, id: nat)
    requires last < |tables|
  {
    forall k :: i < k <= last && tables[k].Some? ==> tables[k].value.tableId != id
  }

  /** The entry at k is the last one of (k, last] with its id. */
  ghost predicate LastWithItsId(tables: seq<Option<TableMapEventData>>, k: nat, last: nat)
    requires k <= last < |tables|
  {
    tables[k].Some? && IdNotIn(tables, k, last, tables[k].value.tableId)
  }

  /** The ids in (i, last] of the run, each once: what the lookahead adds to the cache's keys. */
  lemma {:induction false} ScanTableMapsKeys(tables: seq<Option<TableMapEventData>>, headers: seq<EventHeader>, i: nat,
                                             cache: Cache, ids: seq<nat>)
    requires |tables| == |headers| && i < |headers|
    requires forall id :: id in ids ==> id in cache
    ensures var s := ScanTableMaps(tables, headers, i, cache, ids);
            forall id :: id in s.cache <==> id in cache || !IdNotIn(tables, i, s.last, id)
    decreases |headers| - i
  {
    ScanTableMapsUnfold(tables, headers, i, cache, ids);
    if i + 1 < |headers| && headers[i + 1].eventType == TableMapEvent && tables[i + 1].Some? {
      var t := tables[i + 1].value;
      var cache' := cache[t.tableId := (t.db, t.table)];
      var s := ScanTableMaps(tables, headers, i + 1, cache', ids + [t.tableId]);
      ScanTableMapsKeys(tables, headers, i + 1, cache', ids + [t.tableId]);
      forall id
        ensures id in s.cache <==> id in cache || !IdNotIn(tables, i, s.last, id)
      {
        IdNotInStep(tables, i, s.last, id);
      }
    }
  }

  /** Widening the range by one entry on the left. */
  lemma IdNotInStep(tables: seq<Option<TableMapEventData>>, i: nat, last: nat, id: nat)
    requires i < last < |tables|
    ensures IdNotIn(tables, i, last, id)
            <==> (tables[i + 1].None? || tables[i + 1].value.tableId != id) && IdNotIn(tables, i + 1, last, id)
  {
    if !IdNotIn(tables, i + 1, last, id) {
      var k :| i + 1 < k <= last && tables[k].Some? && tables[k].value.tableId == id;
      assert !IdNotIn(tables, i, last, id);
    }
  }

  /**
   * The lookahead upserts into the cache: each id of the run maps to the names
   * of the LAST table-map event of the run with that id.
   */
  lemma {:induction false} ScanTableMapsLastWins(tables: seq<Option<TableMapEventData>>, headers: seq<EventHeader>, i: nat,
                                                 cache: Cache, ids: seq<nat>)
    requires |tables| == |headers| && i < |headers|
    requires forall id :: id in ids ==> id in cache
    ensures var s := ScanTableMaps(tables, headers, i, cache, ids);
            forall k :: i < k <= s.last && LastWithItsId(tables, k, s.last) ==>
              tables[k].value.tableId in s.cache && s.cache[tables[k].value.tableId] == (tables[k].value.db, tables[k].value.table)
    decreases |headers| - i
  {
    ScanTableMapsUnfold(tables, headers, i, cache, ids);
    if i + 1 < |headers| && headers[i + 1].eventType == TableMapEvent && tables[i + 1].Some? {
      var t := tables[i + 1].value;
      var cache' := cache[t.tableId := (t.db, t.table)];
      var s := ScanTableMaps(tables, headers, i + 1, cache', ids + [t.tableId]);
      ScanTableMapsLastWins(tables, headers, i + 1, cache', ids + [t.tableId]);
      ScanTableMapsUntouched(tables, headers, i + 1, cache', ids + [t.tableId]);
    }
  }

  /** Entries whose id the run does not touch keep their value. */
  lemma {:induction false} ScanTableMapsUntouched(tables: seq<Option<TableMapEventData>>, headers: seq<EventHeader>, i: nat,
                                                  cache: Cache, ids: seq<nat>)
    requires |tables| == |headers| && i < |headers|
    requires forall id :: id in ids ==> id in cache
    ensures var s := ScanTableMaps(tables, headers, i, cache, ids);
            forall id :: id in cache && IdNotIn(tables, i, s.last, id) ==> id in s.cache && s.cache[id] == cache[id]
    decreases |headers| - i
  {
    ScanTableMapsUnfold(tables, headers, i, cache, ids);
    if i + 1 < |headers| && headers[i + 1].eventType == TableMapEvent && tables[i + 1].Some? {
      var t := tables[i + 1].value;
      var cache' := cache[t.tableId := (t.db, t.table)];
      var s := ScanTableMaps(tables, headers, i + 1, cache', ids + [t.tableId]);
      ScanTableMapsUntouched(tables, headers, i + 1, cache', ids + [t.tableId]);
      forall id | id in cache && IdNotIn(tables, i, s.last, id)
        ensures id in s.cache && s.cache[id] == cache[id]
      {
        IdNotInStep(tables, i, s.last, id);
      }
    }
  }

  /**
   * The sources of the run: the j-th id's cached pair is the names of the last
   * table-map event of the run with that id.
   */
  lemma SourcesFollowLastTableMap(tables: seq<Option<TableMapEventData>>, headers: seq<EventHeader>, cur: nat, cache: Cache)
    requires |tables| == |headers| && cur < |headers|
    ensures var scan := ScanTableMaps(tables, headers, cur, cache, []);
            var sources := CachedSources(scan.cache, scan.ids);
            forall j, k :: cur < j <= k <= scan.last && tables[j].Some?
                  && LastWithItsId(tables, k, scan.last)
                  && tables[j].value.tableId == tables[k].value.tableId
                  ==> sources[j - cur - 1] == Source(Some(tables[k].value.db),
                                                     Some(tables[k].value.table))
  {
    var scan := ScanTableMaps(tables, headers, cur, cache, []);
    ScanTableMapsIds(tables, headers, cur, cache, []);
    ScanTableMapsLastWins(tables, headers, cur, cache, []);
    forall j, k | cur < j <= k <= scan.last && tables[j].Some? && LastWithItsId(tables, k, scan.last)
                  && tables[j].value.tableId == tables[k].value.tableId
      ensures CachedSources(scan.cache, scan.ids)[j - cur - 1] == Source(Some(tables[k].value.db), Some(tables[k].value.table))
    {
      var id := tables[k].value.tableId;
      assert scan.ids[j - cur - 1] == id;
      assert scan.cache[id] == (tables[k].value.db, tables[k].value.table);
    }
  }

  /**
   * The runs the AnnotateRows branch consumes when its lookahead succeeds:
   * tmEnd ends the maximal run of decodable table-map events after the cursor,
   * last the maximal run of rows events after that.
   */
  lemma AnnotateRowsRuns(bodies: seq<DecodedBody>, headers: seq<EventHeader>, cur: nat, cache: Cache) returns (tmEnd: nat, last: nat)
    requires |bodies| == |headers| && cur < |headers|
    requires ScanTableMaps(TableMapsOf(bodies, headers), headers, cur, cache, []).error.None?
    ensures tmEnd == ScanTableMaps(TableMapsOf(bodies, headers), headers, cur, cache, []).last
    ensures last == SkipRows(headers, tmEnd)
    ensures cur <= tmEnd <= last < |headers|
    ensures forall k :: cur < k <= tmEnd ==> TableMapsOf(bodies, headers)[k].Some?
    ensures tmEnd + 1 == |headers| || headers[tmEnd + 1].eventType != TableMapEvent
    ensures forall k :: tmEnd < k <= last ==> IsRowsEvent(headers[k].eventType)
    ensures last + 1 == |headers| || !IsRowsEvent(headers[last + 1].eventType)
  {
    var tables := TableMapsOf(bodies, headers);
    ScanTableMapsIds(tables, headers, cur, cache, []);
    ScanTableMapsEnd(tables, headers, cur, cache, []);
    tmEnd := ScanTableMaps(tables, headers, cur, cache, []).last;
    last := SkipRows(headers, tmEnd);
  }

  /**
   * The AnnotateRows step when it succeeds: the type comes from the rows event
   * right after the table maps, else from the classifier; the sources are the
   * annotation's own guess when no table map was read and the cached names of
   * the ids read otherwise; the related end is the end of the last consumed
   * event; the cursor stays on that event, or moves one when nothing was consumed.
   */
  lemma AnnotateRowsStepRule(bodies: seq<DecodedBody>, headers: seq<EventHeader>, cur: nat, cache: Cache)
    requires |bodies| == |headers| && cur < |headers| && headers[cur].eventType == AnnotateRowsEvent
    requires Step(bodies, headers, cur, cache).outcome.Success?
    ensures ScanTableMaps(TableMapsOf(bodies, headers), headers, cur, cache, []).error.None?
    ensures var scan := ScanTableMaps(TableMapsOf(bodies, headers), headers, cur, cache, []);
            var last := SkipRows(headers, scan.last);
            var s := Step(bodies, headers, cur, cache);
            var h := headers[cur];
            var a := bodies[cur].asAnnotateRows;
            var queryType := if RowsType(headers, scan.last).Some? then RowsType(headers, scan.last) else a.queryType;
            && s.cursor == (if last == cur then cur + 1 else last)
            && s.cache == scan.cache
            && (s.outcome.value.None? <==> queryType.None?)
            && (s.outcome.value.Some? ==>
                  var q := s.outcome.value.value;
                  && q.queryType == queryType
                  && q.sources == (if scan.last == cur then [Source(a.db, a.table)] else CachedSources(scan.cache, scan.ids))
                  && q.timestamp == h.timestamp && q.eventStart == h.position && q.eventLength == h.eventLength
                  && q.queryStart == a.queryStart + h.position + HeaderSize
                  && q.queryEnd == a.queryEnd + h.position + HeaderSize
                  && q.relatedEventsEndPos == headers[last].position + headers[last].eventLength
                  && q == NewQuery(q.sources, h.timestamp, queryType, a.query,
                                   h.position, h.eventLength, q.queryStart, q.queryEnd, q.relatedEventsEndPos)
                  && (q.isTruncated <==> |a.query| > TruncateAbove))
  {
    assert Step(bodies, headers, cur, cache) == AnnotateRowsStep(bodies, headers, cur, cache);
  }

  /** The AnnotateRows step fails only through its table-map lookahead, and stops where the lookahead did. */
  lemma AnnotateRowsFailsInLookahead(bodies: seq<DecodedBody>, headers: seq<EventHeader>, cur: nat, cache: Cache)
    requires |bodies| == |headers| && cur < |headers| && headers[cur].eventType == AnnotateRowsEvent
    requires Step(bodies, headers, cur, cache).outcome.Failure?
    ensures var scan := ScanTableMaps(TableMapsOf(bodies, headers), headers, cur, cache, []);
            && scan.error.Some?
            && Step(bodies, headers, cur, cache) == StepResult(scan.last, scan.cache, Failure(scan.error.value))
  {
    assert Step(bodies, headers, cur, cache) == AnnotateRowsStep(bodies, headers, cur, cache);
  }

  /**
   * When the table-map lookahead meets a table-map event that does not decode,
   * the step fails on that event, with the cursor left on the event before it
   * and the entries read so far kept in the cache.
   */
  lemma AnnotateRowsFailure(bodies: seq<DecodedBody>, headers: seq<EventHeader>, cur: nat, cache: Cache)
    requires |bodies| == |headers| && cur < |headers| && headers[cur].eventType == AnnotateRowsEvent
    requires Step(bodies, headers, cur, cache).outcome.Failure?
    ensures var scan := ScanTableMaps(TableMapsOf(bodies, headers), headers, cur, cache, []);
            && scan.last + 1 < |headers| && headers[scan.last + 1].eventType == TableMapEvent
            && TableMapsOf(bodies, headers)[scan.last + 1].None?
            && Step(bodies, headers, cur, cache)
               == StepResult(scan.last, scan.cache, Failure(MalformedBody(headers[scan.last + 1].position, TableMapEvent)))
  {
    AnnotateRowsFailsInLookahead(bodies, headers, cur, cache);
    ScanTableMapsEnd(TableMapsOf(bodies, headers), headers, cur, cache, []);
  }

  // ---------------------------------------------------------------- the whole run

  /** The step that made a query: a query event whose type is not TCL, or an annotate-rows event with a type. */
  ghost predicate MadeBy(headers: seq<EventHeader>, k: nat, q: Query)
  {
    && k < |headers| && headers[k].position == q.eventStart && headers[k].eventLength == q.eventLength
    && ((headers[k].eventType == QueryEvent && q.queryType != Some(Tcl) && |q.sources| == 1)
        || (headers[k].eventType == AnnotateRowsEvent && q.queryType.Some? && |q.sources| >= 1))
  }

  /** A step yields a query only for a query event that is not TCL or an annotate-rows event with a type. */
  lemma StepMadeBy(bodies: seq<DecodedBody>, headers: seq<EventHeader>, cur: nat, cache: Cache)
    requires |bodies| == |headers| && cur < |headers|
    requires Step(bodies, headers, cur, cache).outcome.Success?
    requires Step(bodies, headers, cur, cache).outcome.value.Some?
    ensures MadeBy(headers, cur, Step(bodies, headers, cur, cache).outcome.value.value)
  {
    var t := headers[cur].eventType;
    if t == AnnotateRowsEvent {
      var scan := ScanTableMaps(TableMapsOf(bodies, headers), headers, cur, cache, []);
      assert Step(bodies, headers, cur, cache) == AnnotateRowsStep(bodies, headers, cur, cache);
      assert scan.ids != [] ==> |CachedSources(scan.cache, scan.ids)| >= 1;
    } else {
      assert Step(bodies, headers, cur, cache) == QueryEventStep(bodies, headers, cur, cache);
    }
  }

  /** A query made at cur, put before queries made in order after cur, keeps the owners in order. */
  lemma PrependOwner(headers: seq<EventHeader>, cur: nat, q: Query, owners: seq<nat>, queries: seq<Query>, later: nat)
    requires MadeBy(headers, cur, q) && cur < later
    requires |owners| == |queries|
    requires forall j :: 0 <= j < |owners| ==> later <= owners[j] && MadeBy(headers, owners[j], queries[j])
    requires forall j, j' :: 0 <= j < j' < |owners| ==> owners[j] < owners[j']
    ensures var all := [cur] + owners;
            var made := [q] + queries;
            && |all| == |made|
            && (forall j :: 0 <= j < |all| ==> cur <= all[j] && MadeBy(headers, all[j], made[j]))
            && (forall j, j' :: 0 <= j < j' < |all| ==> all[j] < all[j'])
  {
    var all := [cur] + owners;
    var made := [q] + queries;
    forall j | 0 < j < |all|
      ensures all[j] == owners[j - 1] && made[j] == queries[j - 1]
    {
    }
  }

  /**
   * Every query `parse_queries` yields comes from a distinct event at or after
   * the starting cursor, in header order: a query event that is not TCL or an
   * annotate-rows event with a type. Table-map and rows events never yield one
   * by themselves.
   */
  lemma {:induction false} ParseFromProvenance(bodies: seq<DecodedBody>, headers: seq<EventHeader>, cur: nat, cache: Cache) returns (owners: seq<nat>)
    requires |bodies| == |headers| && cur <= |headers|
    ensures var r := ParseFrom(bodies, headers, cur, cache);
            && |owners| == |r.queries|
            && (forall j :: 0 <= j < |owners| ==> cur <= owners[j] && MadeBy(headers, owners[j], r.queries[j]))
            && (forall j, j' :: 0 <= j < j' < |owners| ==> owners[j] < owners[j'])
    decreases |headers| - cur
  {
    if cur == |headers| {
      owners := [];
    } else {
      var s := Step(bodies, headers, cur, cache);
      if s.outcome.Failure? {
        owners := [];
      } else {
        var r := ParseFrom(bodies, headers, cur, cache);
        var restRun := ParseFrom(bodies, headers, s.cursor, s.cache);
        var rest := ParseFromProvenance(bodies, headers, s.cursor, s.cache);
        if s.outcome.value.Some? {
          assert r.queries == [s.outcome.value.value] + restRun.queries;
          StepMadeBy(bodies, headers, cur, cache);
          owners := [cur] + rest;
          PrependOwner(headers, cur, s.outcome.value.value, rest, restRun.queries, s.cursor);
        } else {
          assert r.queries == restRun.queries;
          owners := rest;
        }
      }
    }
  }
}
