/**
 * `BinlogParser` of parser.py: the binlog bytes, the header list indexed once
 * at construction, a cursor into that list and the table-id cache that the
 * AnnotateRows lookahead fills. Every method is proved against the pure
 * functions of module Correlator, so the lemmas proved there hold of the
 * parser's runs.
 */
module Binlog {
  import opened Wrappers
  import opened Bytes
  import opened SqlText
  import opened Events
  import opened HeaderIndex
  import opened Correlator

  class BinlogParser {
    const data: seq<byte>
    const headers: seq<EventHeader>
    var curHeaderIndex: nat
    var tableMap: Cache

    /** The header list is the complete chain of the data and the cursor is at most one past its end. */
    ghost predicate Valid()
      reads this
    {
      && HasMagic(data)
      && IsCompleteChain(data, headers) && DistinctPositions(headers)
      && curHeaderIndex <= |headers|
    }

    /** A parser over indexed data, before any event is read. */
    constructor Init(data: seq<byte>, headers: seq<EventHeader>)
      requires HasMagic(data) && IsCompleteChain(data, headers) && DistinctPositions(headers)
      ensures Valid()
      ensures this.data == data && this.headers == headers
      ensures curHeaderIndex == 0 && tableMap == map[]
    {
      this.data := data;
      this.headers := headers;
      curHeaderIndex := 0;
      tableMap := map[];
    }

    /**
     * `__init__`: data without the four magic bytes is refused; otherwise the
     * headers are indexed. Where the source's header walk would revisit a
     * position and never return, the model reports the cycle instead.
     */
    static method Open(data: seq<byte>) returns (r: Result<BinlogParser, ParseError>)
      ensures !HasMagic(data) ==> r == Failure(InvalidBinlog)
      ensures HasMagic(data) ==> r.Success? || r.error.HeaderCycle?
      ensures HasMagic(data) && (exists hs :: IsCompleteChain(data, hs)) ==> r.Success?
      ensures r.Failure? && r.error.HeaderCycle? ==>
                HasMagic(data) && exists hs :: Revisits(data, hs) && hs != [] && Last(hs).nextEventPosition == r.error.position
      ensures r.Success? ==>
                && fresh(r.value) && r.value.Valid()
                && r.value.data == data && r.value.curHeaderIndex == 0 && r.value.tableMap == map[]
      ensures r.Success? || r.error.InvalidBinlog? || r.error.HeaderCycle?
    {
      if !HasMagic(data) {
        return Failure(InvalidBinlog);
      }
      var scan := ParseHeaders(data);
      if scan.Cycles? {
        forall c | IsChainPrefix(data, c)
          ensures !Stops(data, c)
        {
          CycleHasNoCompleteChain(data, scan.headers, c);
        }
        return Failure(HeaderCycle(scan.position));
      }
      var p := new BinlogParser.Init(data, scan.headers);
      r := Success(p);
    }

    /** `current_header`: the header under the cursor, if any. */
    function CurrentHeader(): (h: Option<EventHeader>)
      reads this
      ensures h.Some? <==> curHeaderIndex < |headers|
      ensures h.Some? ==> h.value == headers[curHeaderIndex]
    {
      if curHeaderIndex < |headers| then Some(headers[curHeaderIndex]) else None
    }

    /** `next_header`: the header after the cursor, if any. */
    function NextHeader(): (h: Option<EventHeader>)
      reads this
      ensures h.Some? <==> curHeaderIndex + 1 < |headers|
      ensures h.Some? ==> h.value == headers[curHeaderIndex + 1]
    {
      if curHeaderIndex + 1 < |headers| then Some(headers[curHeaderIndex + 1]) else None
    }

    /** `move_to_next_header`. */
    method MoveToNextHeader()
      modifies this`curHeaderIndex
      ensures curHeaderIndex == old(curHeaderIndex) + 1
    {
      curHeaderIndex := curHeaderIndex + 1;
    }

    /** `QueryEventData(self._get_body(header))` for the header at k. */
    method QueryEventAt(k: nat, extract: DbTableExtractor) returns (r: Result<QueryEventData, DecodeError>)
      requires k < |headers|
      ensures r == DecodeBodies(data, headers, extract)[k].asQueryEvent
    {
      r := DecodeQueryEvent(Body(data, headers[k]), extract);
      DecodedQueryEventAt(data, headers, extract, k);
    }

    /** `AnnotateRowsEventData(self._get_body(header))` for the header at k. */
    method AnnotateRowsAt(k: nat, extract: DbTableExtractor) returns (r: AnnotateRowsEventData)
      requires k < |headers|
      ensures r == DecodeBodies(data, headers, extract)[k].asAnnotateRows
    {
      r := DecodeAnnotateRows(Body(data, headers[k]), extract);
      DecodedAnnotateRowsAt(data, headers, extract, k);
    }

    /** `TableMapEventData(self._get_body(header))` for the header at k. */
    method TableMapAt(k: nat, ghost extract: DbTableExtractor) returns (r: Result<TableMapEventData, DecodeError>)
      requires k < |headers|
      ensures r == DecodeBodies(data, headers, extract)[k].asTableMap
    {
      r := DecodeTableMap(Body(data, headers[k]));
      DecodedTableMapAt(data, headers, extract, k);
    }

    /** The QueryEvent branch of `_parse_event`, with the single source the call evidently meant. */
    method ParseQueryEvent(extract: DbTableExtractor) returns (r: Result<Option<Query>, ParseError>)
      requires curHeaderIndex < |headers| && headers[curHeaderIndex].eventType == QueryEvent
      modifies this`curHeaderIndex
      ensures var s := QueryEventStep(DecodeBodies(data, headers, extract), headers, old(curHeaderIndex), tableMap);
              curHeaderIndex == s.cursor && r == s.outcome
    {
      var header := headers[curHeaderIndex];
      var decoded := QueryEventAt(curHeaderIndex, extract);
      if decoded.Failure? {
        return Failure(MalformedBody(header.position, header.eventType));
      }
      var event := decoded.value;
      var result: Option<Query> := None;
      if event.queryType != Some(Tcl) {
        result := Some(NewQuery([Source(Some(event.db), event.table)], header.timestamp, event.queryType, event.query,
                                header.position, header.eventLength,
                                event.queryStart + header.position + HeaderSize,
                                event.queryEnd + header.position + HeaderSize,
                                header.position + header.eventLength));
      }
      MoveToNextHeader();
      r := Success(result);
    }

    /**
     * The first lookahead loop of the AnnotateRows branch: while the next
     * header is a table-map event, decode it, upsert its id into the cache and
     * move onto it. A body that does not decode stops the loop with an error.
     */
    method ReadTableMaps(ghost extract: DbTableExtractor) returns (ids: seq<nat>, error: Option<ParseError>)
      requires curHeaderIndex < |headers|
      modifies this
      ensures var scan := ScanTableMaps(TableMapsOf(DecodeBodies(data, headers, extract), headers), headers, old(curHeaderIndex), old(tableMap), []);
              && curHeaderIndex == scan.last && tableMap == scan.cache
              && ids == scan.ids && error == scan.error
    {
      ghost var tables := TableMapsOf(DecodeBodies(data, headers, extract), headers);
      ghost var scan := ScanTableMaps(tables, headers, curHeaderIndex, tableMap, []);
      ids := [];
      while NextHeader().Some? && NextHeader().value.eventType == TableMapEvent
        invariant curHeaderIndex < |headers|
        invariant forall id :: id in ids ==> id in tableMap
        invariant scan == ScanTableMaps(tables, headers, curHeaderIndex, tableMap, ids)
        decreases |headers| - curHeaderIndex
      {
        var next := NextHeader().value;
        var decoded := TableMapAt(curHeaderIndex + 1, extract);
        ScanTableMapsUnfold(tables, headers, curHeaderIndex, tableMap, ids);
        if decoded.Failure? {
          return ids, Some(MalformedBody(next.position, next.eventType));
        }
        var t := decoded.value;
        assert scan == ScanTableMaps(tables, headers, curHeaderIndex + 1, tableMap[t.tableId := (t.db, t.table)], ids + [t.tableId]);
        tableMap := tableMap[t.tableId := (t.db, t.table)];
        ids := ids + [t.tableId];
        MoveToNextHeader();
      }
      ScanTableMapsUnfold(tables, headers, curHeaderIndex, tableMap, ids);
      error := None;
    }

    /** The second lookahead loop: move onto every following rows event. */
    method SkipRowsEvents()
      requires curHeaderIndex < |headers|
      modifies this`curHeaderIndex
      ensures curHeaderIndex == SkipRows(headers, old(curHeaderIndex))
    {
      ghost var last := SkipRows(headers, curHeaderIndex);
      while NextHeader().Some? && IsRowsEvent(NextHeader().value.eventType)
        invariant curHeaderIndex < |headers|
        invariant SkipRows(headers, curHeaderIndex) == last
        decreases |headers| - curHeaderIndex
      {
        MoveToNextHeader();
      }
    }

    /** The source list of the ids read by the lookahead, from the cache, in order. */
    method SourcesOf(ids: seq<nat>) returns (sources: seq<Source>)
      requires forall id :: id in ids ==> id in tableMap
      ensures sources == CachedSources(tableMap, ids)
    {
      sources := [];
      for j := 0 to |ids|
        invariant sources == CachedSources(tableMap, ids[..j])
      {
        var id := ids[j];
        sources := sources + [Source(Some(tableMap[id].0), Some(tableMap[id].1))];
        assert ids[..j + 1][..j] == ids[..j];
      }
      assert ids[..|ids|] == ids;
    }

    /**
     * The AnnotateRows branch of `_parse_event` after its table-map
     * lookahead: fix the type, skip the following rows events and build the
     * query, leaving the cursor on the last event consumed.
     */
    method FinishAnnotateRows(start: nat, annotation: AnnotateRowsEventData, ids: seq<nat>)
      returns (r: Result<Option<Query>, ParseError>)
      requires start <= curHeaderIndex < |headers|
      requires forall id :: id in ids ==> id in tableMap
      modifies this`curHeaderIndex
      ensures var s := AnnotateRowsFinish(annotation, headers, start, old(curHeaderIndex), tableMap, ids);
              curHeaderIndex == s.cursor && r == s.outcome
    {
      var header := headers[start];
      var queryType: Option<StatementType> := None;
      var next := NextHeader();
      if next.Some? {
        if next.value.eventType == WriteRowsV1Event {
          queryType := Some(Insert);
        } else if next.value.eventType == UpdateRowsV1Event {
          queryType := Some(Update);
        } else if next.value.eventType == DeleteRowsV1Event {
          queryType := Some(Delete);
        }
      }
      if queryType.None? {
        queryType := annotation.queryType;
      }

      SkipRowsEvents();

      var result: Option<Query> := None;
      if queryType.Some? {
        var sources := SourcesOf(ids);
        if |sources| == 0 {
          sources := [Source(annotation.db, annotation.table)];
        }
        var current := headers[curHeaderIndex];
        result := Some(NewQuery(sources, header.timestamp, queryType, annotation.query,
                                header.position, header.eventLength,
                                annotation.queryStart + header.position + HeaderSize,
                                annotation.queryEnd + header.position + HeaderSize,
                                current.position + current.eventLength));
      }
      // The source moves on only when neither lookahead moved the cursor.
      if curHeaderIndex == start {
        MoveToNextHeader();
      }
      r := Success(result);
    }

    /**
     * The AnnotateRows branch of `_parse_event`: read the following table-map
     * events into the cache, then finish as above.
     */
    method ParseAnnotateRows(extract: DbTableExtractor) returns (r: Result<Option<Query>, ParseError>)
      requires curHeaderIndex < |headers| && headers[curHeaderIndex].eventType == AnnotateRowsEvent
      modifies this
      ensures var s := AnnotateRowsStep(DecodeBodies(data, headers, extract), headers, old(curHeaderIndex), old(tableMap));
              curHeaderIndex == s.cursor && tableMap == s.cache && r == s.outcome
    {
      var start := curHeaderIndex;
      var annotation := AnnotateRowsAt(start, extract);
      var ids, error := ReadTableMaps(extract);
      if error.Some? {
        return Failure(error.value);
      }
      r := FinishAnnotateRows(start, annotation, ids);
    }

    /** `_parse_event` on the header under the cursor: one step of `Step`. */
    method ParseEvent(extract: DbTableExtractor) returns (r: Result<Option<Query>, ParseError>)
      requires Valid() && curHeaderIndex < |headers|
      modifies this
      ensures Valid()
      ensures var s := Step(DecodeBodies(data, headers, extract), headers, old(curHeaderIndex), old(tableMap));
              curHeaderIndex == s.cursor && tableMap == s.cache && r == s.outcome
    {
      var header := headers[curHeaderIndex];
      if header.eventType !in AllowedEventTypes {
        MoveToNextHeader();
        return Success(None);
      }
      if header.eventType == QueryEvent {
        r := ParseQueryEvent(extract);
      } else if header.eventType == AnnotateRowsEvent {
        r := ParseAnnotateRows(extract);
      } else {
        MoveToNextHeader();
        r := Success(None);
      }
    }

    /**
     * `parse_queries`: parse events from the cursor until the headers run out,
     * collecting what each yields; a failing step ends the run with its error
     * after the queries yielded before it.
     */
    method ParseQueries(extract: DbTableExtractor) returns (queries: seq<Query>, error: Option<ParseError>)
      requires Valid()
      modifies this
      ensures Valid()
      ensures var run := ParseFrom(DecodeBodies(data, headers, extract), headers, old(curHeaderIndex), old(tableMap));
              && queries == run.queries && error == run.error
              && curHeaderIndex == run.cursor && tableMap == run.cache
    {
      ghost var bodies := DecodeBodies(data, headers, extract);
      ghost var run := ParseFrom(bodies, headers, curHeaderIndex, tableMap);
      queries := [];
      error := None;
      while CurrentHeader().Some?
        invariant Valid()
        invariant var rest := ParseFrom(bodies, headers, curHeaderIndex, tableMap);
                  run == ParseRun(queries + rest.queries, rest.error, rest.cursor, rest.cache)
        decreases |headers| - curHeaderIndex
      {
        ParseFromStep(bodies, headers, curHeaderIndex, tableMap);
        ghost var queries0 := queries;
        var r := ParseEvent(extract);
        if r.Failure? {
          error := Some(r.error);
          assert queries0 + [] == queries;
          return;
        }
        if r.value.Some? {
          queries := queries + [r.value.value];
        }
        ghost var yielded: seq<Query> := if r.value.Some? then [r.value.value] else [];
        ghost var later := ParseFrom(bodies, headers, curHeaderIndex, tableMap).queries;
        assert queries == queries0 + yielded;
        QueriesAppend(queries0, yielded, later);
      }
    }
  }
}
