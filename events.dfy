/**
 * The straight-line decoders of parser.py: the fixed 19-byte event header,
 * the bodies of table-map, query and annotate-rows events, and the `Query`
 * record with its truncation rule. Offsets follow MariaDB's binlog event
 * layout (2-binlog-event-header, table_map_event, query_event,
 * annotate_rows_event in the MariaDB knowledge base). Each decoder has an
 * encoder beside it that lays out a body the way the server writes it, and
 * a round-trip lemma connecting the two.
 */
module Events {
  import opened Wrappers
  import opened Bytes
  import opened SqlText

  const MagicNumber: seq<byte> := [0xFE, 0x62, 0x69, 0x6E]

  const FormatDescriptionEvent: byte := 0x0F
  const QueryEvent: byte := 0x02
  const AnnotateRowsEvent: byte := 0xA0
  const TableMapEvent: byte := 0x13
  const WriteRowsV1Event: byte := 0x17
  const UpdateRowsV1Event: byte := 0x18
  const DeleteRowsV1Event: byte := 0x19

  /** The event types the correlator acts on; every other type is skipped. */
  const AllowedEventTypes: seq<byte> :=
    [TableMapEvent, QueryEvent, AnnotateRowsEvent, WriteRowsV1Event, UpdateRowsV1Event, DeleteRowsV1Event]

  predicate IsRowsEvent(t: byte)
  {
    t == WriteRowsV1Event || t == UpdateRowsV1Event || t == DeleteRowsV1Event
  }

  const HeaderSize: nat := 19
  const U32Limit: nat := 0x1_0000_0000

  lemma Pow256Values()
    ensures Pow256(2) == 0x1_0000
    ensures Pow256(4) == U32Limit
    ensures Pow256(6) == 0x1_0000_0000_0000
  {
    assert Pow256(1) == 256;
    assert Pow256(3) == 0x100_0000;
    assert Pow256(5) == 0x100_0000_0000;
  }

  /** Why a body decoder failed: Python's `struct.unpack` on too few bytes. */
  datatype DecodeError = BodyTooShort(length: nat)

  /** Why a parse stopped. */
  datatype ParseError =
    | InvalidBinlog                                 // shorter than 4 bytes or wrong magic number
    | HeaderCycle(position: nat)                    // the header chain returns to this position
    | MalformedBody(position: nat, eventType: byte) // a body decoder failed on the event at position
    | UnexpectedKeyword(position: nat)              // Query() called with keywords it does not take

  // ---------------------------------------------------------------- headers

  datatype EventHeader = EventHeader(
    position: nat,
    timestamp: nat,
    eventType: byte,
    eventLength: nat,        // header and body together
    nextEventPosition: nat   // 0 marks the last event
  )

  /** `struct.unpack("<IB4xII2x", raw)`: bytes 5-8 and 17-18 are skipped. */
  function DecodeHeader(raw: seq<byte>, position: nat): (h: EventHeader)
    requires |raw| == HeaderSize
    ensures h.position == position && h.eventType == raw[4]
    ensures h.timestamp < U32Limit && h.eventLength < U32Limit && h.nextEventPosition < U32Limit
  {
    Pow256Values();
    EventHeader(position, LittleEndian(raw[0..4]), raw[4], LittleEndian(raw[9..13]), LittleEndian(raw[13..17]))
  }

  predicate HeaderFieldsFit(h: EventHeader)
  {
    h.timestamp < U32Limit && h.eventLength < U32Limit && h.nextEventPosition < U32Limit
  }

  /** The header as the server writes it, with the skipped bytes given explicitly. */
  function EncodeHeader(h: EventHeader, serverId: seq<byte>, flags: seq<byte>): (raw: seq<byte>)
    requires HeaderFieldsFit(h) && |serverId| == 4 && |flags| == 2
    ensures |raw| == HeaderSize
  {
    Pow256Values();
    ToLittleEndian(h.timestamp, 4) + [h.eventType] + serverId
      + ToLittleEndian(h.eventLength, 4) + ToLittleEndian(h.nextEventPosition, 4) + flags
  }

  lemma HeaderRoundTrip(h: EventHeader, serverId: seq<byte>, flags: seq<byte>)
    requires HeaderFieldsFit(h) && |serverId| == 4 && |flags| == 2
    ensures DecodeHeader(EncodeHeader(h, serverId, flags), h.position) == h
  {
    Pow256Values();
    var raw := EncodeHeader(h, serverId, flags);
    assert raw[0..4] == ToLittleEndian(h.timestamp, 4);
    assert raw[9..13] == ToLittleEndian(h.eventLength, 4);
    assert raw[13..17] == ToLittleEndian(h.nextEventPosition, 4);
    LittleEndianOfEncoding(h.timestamp, 4);
    LittleEndianOfEncoding(h.eventLength, 4);
    LittleEndianOfEncoding(h.nextEventPosition, 4);
  }

  /** Every 19-byte header is the encoding of what it decodes to, with its own skipped bytes. */
  lemma HeaderEncodingOfDecode(raw: seq<byte>, position: nat)
    requires |raw| == HeaderSize
    ensures EncodeHeader(DecodeHeader(raw, position), raw[5..9], raw[17..19]) == raw
  {
    EncodingOfLittleEndian(raw[0..4]);
    EncodingOfLittleEndian(raw[9..13]);
    EncodingOfLittleEndian(raw[13..17]);
    var h := DecodeHeader(raw, position);
    assert ToLittleEndian(h.timestamp, 4) == raw[0..4];
    assert ToLittleEndian(h.eventLength, 4) == raw[9..13];
    assert ToLittleEndian(h.nextEventPosition, 4) == raw[13..17];
    var e := EncodeHeader(h, raw[5..9], raw[17..19]);
    forall i | 0 <= i < HeaderSize ensures e[i] == raw[i] {
      if i < 4 { assert e[i] == raw[0..4][i]; }
      else if i == 4 { }
      else if i < 9 { assert e[i] == raw[5..9][i - 5]; }
      else if i < 13 { assert e[i] == raw[9..13][i - 9]; }
      else if i < 17 { assert e[i] == raw[13..17][i - 13]; }
      else { assert e[i] == raw[17..19][i - 17]; }
    }
  }

  // ---------------------------------------------------------------- table map

  datatype TableMapEventData = TableMapEventData(tableId: nat, db: string, table: string)

  /**
   * TableMapEventData: a 6-byte table id, two flag bytes, a length-prefixed
   * database name, its terminating byte, then a length-prefixed table name.
   */
  function DecodeTableMap(body: seq<byte>): (r: Result<TableMapEventData, DecodeError>)
    ensures r.Success? <==> |body| >= 9 && |body| >= 11 + body[8] as int
    ensures r.Success? ==> r.value.tableId == LittleEndian(body[..6]) && r.value.tableId < Pow256(6)
    ensures r.Success? ==> r.value.db == Latin1(body[9..9 + body[8] as int])
    ensures r.Success? ==>
              var start := 11 + body[8] as int;
              r.value.table == Latin1(Slice(body, start, start + body[10 + body[8] as int] as int))
    ensures r.Failure? ==> r.error == BodyTooShort(|body|)
  {
    if |body| < 9 then Failure(BodyTooShort(|body|))
    else
      var dbLen: nat := body[8];
      if |body| < 11 + dbLen then Failure(BodyTooShort(|body|))
      else
        var tableLen: nat := body[10 + dbLen];
        Success(TableMapEventData(
          LittleEndian(body[..6]),
          Latin1(body[9..9 + dbLen]),
          Latin1(Slice(body, 11 + dbLen, 11 + dbLen + tableLen))))
  }

  /** A table-map body as the server writes it; `rest` is the column metadata and checksum. */
  function EncodeTableMapBody(tableId: nat, flags: seq<byte>, db: seq<byte>, table: seq<byte>, rest: seq<byte>): (body: seq<byte>)
    requires tableId < Pow256(6) && |flags| == 2 && |db| < 256 && |table| < 256
    ensures |body| == 12 + |db| + |table| + |rest|
  {
    ToLittleEndian(tableId, 6) + flags + [|db|] + db + [0] + [|table|] + table + [0] + rest
  }

  lemma TableMapRoundTrip(tableId: nat, flags: seq<byte>, db: seq<byte>, table: seq<byte>, rest: seq<byte>)
    requires tableId < Pow256(6) && |flags| == 2 && |db| < 256 && |table| < 256
    ensures DecodeTableMap(EncodeTableMapBody(tableId, flags, db, table, rest))
            == Success(TableMapEventData(tableId, Latin1(db), Latin1(table)))
  {
    var body := EncodeTableMapBody(tableId, flags, db, table, rest);
    var n := |db|;
    assert body[..6] == ToLittleEndian(tableId, 6);
    assert body[8] == n;
    assert body[9..9 + n] == db;
    assert body[10 + n] == |table|;
    assert body[11 + n..11 + n + |table|] == table;
    LittleEndianOfEncoding(tableId, 6);
  }

  // ---------------------------------------------------------------- query event

  datatype QueryEventData = QueryEventData(
    db: string,
    table: Option<string>,
    query: string,
    queryType: Option<StatementType>,
    queryStart: int,   // body-relative
    queryEnd: int      // body-relative
  )

  /**
   * QueryEventData: the database-name length at offset 8, the status-variables
   * length (little-endian u16) at offsets 11-12, the database name after the
   * status variables, its terminating byte, then the statement text up to the
   * 4-byte checksum. A non-empty schema found in the text replaces the database.
   */
  function DecodeQueryEvent(body: seq<byte>, extract: DbTableExtractor): (r: Result<QueryEventData, DecodeError>)
    ensures r.Success? <==> |body| >= 13
    ensures r.Failure? ==> r.error == BodyTooShort(|body|)
    ensures r.Success? ==>
              var e := r.value;
              var dbStart := 13 + LittleEndian(body[11..13]);
              && e.queryStart == dbStart + body[8] + 1
              && e.queryEnd == |body| - 4
              && (e.queryStart <= e.queryEnd ==> e.query == Latin1(body[e.queryStart..e.queryEnd]))
              && (e.queryStart > e.queryEnd ==> e.query == "")
              && e.queryType == TypeOfQuery(e.query)
              && e.table == extract(e.query).table
              && (match extract(e.query).db
                  case Some(schema) => schema != "" ==> e.db == schema
                  case None => true)
              && (extract(e.query).db in {None, Some("")} ==> e.db == Latin1(Slice(body, dbStart, dbStart + body[8])))
  {
    if |body| < 13 then Failure(BodyTooShort(|body|))
    else
      var dbLen: nat := body[8];
      var dbStart := 13 + LittleEndian(body[11..13]);
      var headerDb := Latin1(Slice(body, dbStart, dbStart + dbLen));
      var queryStart := dbStart + dbLen + 1;
      var queryEnd := |body| - 4;
      var query := Latin1(Slice(body, queryStart, queryEnd));
      var hint := extract(query);
      var db := if hint.db.Some? && hint.db.value != "" then hint.db.value else headerDb;
      Success(QueryEventData(db, hint.table, query, TypeOfQuery(query), queryStart, queryEnd))
  }

  /**
   * A query-event body as the server writes it: thread id and execution time
   * (8 bytes), the database-name length, the error code (2 bytes), the
   * status-variables block with its length, the database name, a terminating
   * byte, the statement text and the checksum.
   */
  function EncodeQueryEventBody(
    threadAndTime: seq<byte>, errorCode: seq<byte>, statusVars: seq<byte>,
    db: seq<byte>, text: seq<byte>, checksum: seq<byte>): (body: seq<byte>)
    requires |threadAndTime| == 8 && |errorCode| == 2 && |checksum| == 4
    requires |db| < 256 && |statusVars| < 0x1_0000
    ensures |body| == 18 + |statusVars| + |db| + |text|
  {
    Pow256Values();
    threadAndTime + [|db|] + errorCode + ToLittleEndian(|statusVars|, 2)
      + statusVars + db + [0] + text + checksum
  }

  lemma QueryEventRoundTrip(
    threadAndTime: seq<byte>, errorCode: seq<byte>, statusVars: seq<byte>,
    db: seq<byte>, text: seq<byte>, checksum: seq<byte>, extract: DbTableExtractor)
    requires |threadAndTime| == 8 && |errorCode| == 2 && |checksum| == 4
    requires |db| < 256 && |statusVars| < 0x1_0000
    ensures var r := DecodeQueryEvent(EncodeQueryEventBody(threadAndTime, errorCode, statusVars, db, text, checksum), extract);
            && r.Success?
            && r.value.query == Latin1(text)
            && r.value.queryStart == 14 + |statusVars| + |db|
            && r.value.queryEnd == r.value.queryStart + |text|
            && r.value.queryType == TypeOfQuery(Latin1(text))
            && (extract(Latin1(text)).db in {None, Some("")} ==> r.value.db == Latin1(db))
  {
    Pow256Values();
    var body := EncodeQueryEventBody(threadAndTime, errorCode, statusVars, db, text, checksum);
    var n, m := |statusVars|, |db|;
    assert body[8] == m;
    assert body[11..13] == ToLittleEndian(n, 2);
    LittleEndianOfEncoding(n, 2);
    assert body[13 + n..13 + n + m] == db;
    assert body[14 + n + m..|body| - 4] == text;
  }

  // ---------------------------------------------------------------- annotate rows

  datatype AnnotateRowsEventData = AnnotateRowsEventData(
    query: string,
    queryType: Option<StatementType>,
    db: Option<string>,
    table: Option<string>,
    queryStart: int,   // body-relative
    queryEnd: int      // body-relative
  )

  /**
   * AnnotateRowsEventData: the whole body but its last four bytes is the
   * statement text. On a body shorter than four bytes the end offset is
   * negative and Python's slice counts it from the end.
   */
  function DecodeAnnotateRows(body: seq<byte>, extract: DbTableExtractor): (a: AnnotateRowsEventData)
    ensures a.queryStart == 0 && a.queryEnd == |body| - 4
    ensures |body| >= 4 ==> a.query == Latin1(body[..|body| - 4])
    ensures |body| < 4 ==> a.query == Latin1(body[..if |body| <= 2 then 0 else 2 * |body| - 4])
    ensures a.queryType == TypeOfQuery(a.query)
    ensures a.db == extract(a.query).db && a.table == extract(a.query).table
  {
    var query := Latin1(Slice(body, 0, |body| - 4));
    var hint := extract(query);
    AnnotateRowsEventData(query, TypeOfQuery(query), hint.db, hint.table, 0, |body| - 4)
  }

  lemma AnnotateRowsRoundTrip(text: seq<byte>, checksum: seq<byte>, extract: DbTableExtractor)
    requires |checksum| == 4
    ensures DecodeAnnotateRows(text + checksum, extract).query == Latin1(text)
  {
    assert (text + checksum)[..|text|] == text;
  }

  // ---------------------------------------------------------------- query record

  /** One (database, table) pair a statement touches. */
  datatype Source = Source(db: Option<string>, table: Option<string>)

  datatype Query = Query(
    sources: seq<Source>,
    timestamp: nat,
    queryType: Option<StatementType>,
    query: string,
    isTruncated: bool,
    queryStart: int,             // absolute offsets of the statement text
    queryEnd: int,
    eventStart: nat,             // the owning event's header
    eventLength: nat,
    relatedEventsEndPos: int     // the end of the last event folded into this statement
  )

  const TruncateAbove: nat := 500
  const KeptHead: nat := 200
  const KeptTail: nat := 300
  const Ellipsis: string := "..."

  /**
   * Query.__init__: a text longer than 500 characters is stored as its first
   * 200 characters, "..." and its last 300; every other field is stored as given.
   */
  function NewQuery(
    sources: seq<Source>, timestamp: nat, queryType: Option<StatementType>, query: string,
    eventStart: nat, eventLength: nat, queryStart: int, queryEnd: int, relatedEventsEndPos: int): (q: Query)
    ensures q.isTruncated <==> |query| > TruncateAbove
    ensures |q.query| <= KeptHead + |Ellipsis| + KeptTail
    ensures !q.isTruncated ==> q.query == query
    ensures q.isTruncated ==> && |q.query| == KeptHead + |Ellipsis| + KeptTail
                              && q.query[..KeptHead] == query[..KeptHead]
                              && q.query[KeptHead..KeptHead + |Ellipsis|] == Ellipsis
                              && q.query[KeptHead + |Ellipsis|..] == query[|query| - KeptTail..]
    ensures q.sources == sources && q.timestamp == timestamp && q.queryType == queryType
    ensures q.eventStart == eventStart && q.eventLength == eventLength
    ensures q.queryStart == queryStart && q.queryEnd == queryEnd
    ensures q.relatedEventsEndPos == relatedEventsEndPos
  {
    var truncated := |query| > TruncateAbove;
    var text := if truncated then query[..KeptHead] + Ellipsis + query[|query| - KeptTail..] else query;
    Query(sources, timestamp, queryType, text, truncated, queryStart, queryEnd,
          eventStart, eventLength, relatedEventsEndPos)
  }

  /** Storing a stored text again leaves it as it is: truncation is idempotent on the text. */
  lemma TruncationIsIdempotent(
    sources: seq<Source>, timestamp: nat, queryType: Option<StatementType>, query: string,
    eventStart: nat, eventLength: nat, queryStart: int, queryEnd: int, relatedEventsEndPos: int)
    ensures var q := NewQuery(sources, timestamp, queryType, query, eventStart, eventLength, queryStart, queryEnd, relatedEventsEndPos);
            NewQuery(sources, timestamp, queryType, q.query, eventStart, eventLength, queryStart, queryEnd, relatedEventsEndPos).query
            == q.query
  {
    var q := NewQuery(sources, timestamp, queryType, query, eventStart, eventLength, queryStart, queryEnd, relatedEventsEndPos);
    if q.isTruncated {
      var t := q.query;
      assert t == t[..KeptHead] + Ellipsis + t[|t| - KeptTail..];
    }
  }

  /** A text of 700 characters is stored as 503; one of 500 is stored unchanged. */
  lemma TruncationBoundary(long: string, short: string, timestamp: nat)
    requires |long| == 700 && |short| == 500
    ensures var q := NewQuery([], timestamp, None, long, 0, 0, 0, 0, 0);
            q.isTruncated && |q.query| == 503 && q.query[..200] == long[..200] && q.query[203..] == long[400..]
    ensures var q := NewQuery([], timestamp, None, short, 0, 0, 0, 0, 0);
            !q.isTruncated && q.query == short
  {
  }
}
