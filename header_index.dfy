/**
 * The header indexer of parser.py (`BinlogParser._parse_headers`): starting
 * right after the 4-byte magic number it decodes a 19-byte header, then jumps
 * to that header's next-event position, until the next position is 0 or no
 * whole header fits at it. Nothing checks that the next position moves
 * forward, so a chain that returns to a position it has visited makes the
 * source loop forever; the model reports that case as `Cycles`.
 */
module HeaderIndex {
  import opened Bytes
  import opened Events

  /** The 4-byte magic number FE 62 69 6E opens every binlog. */
  predicate HasMagic(data: seq<byte>)
  {
    |data| >= 4 && data[..4] == MagicNumber
  }

  const FirstHeaderPosition: nat := 4

  /** The header decoded from the 19 bytes at position. */
  function HeaderAt(data: seq<byte>, position: nat): (h: EventHeader)
    requires position + HeaderSize <= |data|
    ensures h.position == position && h.eventType == data[position + 4]
    ensures HeaderFieldsFit(h)
  {
    DecodeHeader(data[position..position + HeaderSize], position)
  }

  function Last(hs: seq<EventHeader>): EventHeader
    requires hs != []
  {
    hs[|hs| - 1]
  }

  /**
   * hs is the start of the chain: the first header sits at offset 4, every
   * header fits in data and is decoded from the bytes at its position, and
   * each header's successor sits at its non-zero next-event position.
   */
  ghost predicate IsChainPrefix(data: seq<byte>, hs: seq<EventHeader>)
  {
    && (hs != [] ==> hs[0].position == FirstHeaderPosition)
    && (forall k :: 0 <= k < |hs| ==>
          hs[k].position + HeaderSize <= |data| && hs[k] == HeaderAt(data, hs[k].position))
    && (forall k :: 0 <= k < |hs| - 1 ==>
          hs[k].nextEventPosition != 0 && hs[k + 1].position == hs[k].nextEventPosition)
  }

  /** The loop ends after hs: nothing fits at the next position, or the last header says 0. */
  ghost predicate Stops(data: seq<byte>, hs: seq<EventHeader>)
  {
    if hs == [] then FirstHeaderPosition + HeaderSize > |data|
    else Last(hs).nextEventPosition == 0 || Last(hs).nextEventPosition + HeaderSize > |data|
  }

  ghost predicate IsCompleteChain(data: seq<byte>, hs: seq<EventHeader>)
  {
    IsChainPrefix(data, hs) && Stops(data, hs)
  }

  ghost predicate DistinctPositions(hs: seq<EventHeader>)
  {
    forall i, j :: 0 <= i < j < |hs| ==> hs[i].position != hs[j].position
  }

  /** The loop goes on after hs, to a position it has already decoded a header at. */
  ghost predicate Revisits(data: seq<byte>, hs: seq<EventHeader>)
  {
    && IsChainPrefix(data, hs)
    && !Stops(data, hs)
    && exists k :: 0 <= k < |hs| && hs[k].position == Last(hs).nextEventPosition
  }

  ghost predicate MovesForward(hs: seq<EventHeader>)
  {
    forall k :: 0 <= k < |hs| ==>
      hs[k].nextEventPosition == 0 || hs[k].nextEventPosition > hs[k].position
  }

  datatype HeaderScan =
    | Indexed(headers: seq<EventHeader>)
    | Cycles(headers: seq<EventHeader>, position: nat)  // the source would loop forever from here

  /** The offsets below n. */
  function Positions(n: nat): (s: set<nat>)
    ensures forall i: nat :: i in s <==> i < n
  {
    if n == 0 then {} else Positions(n - 1) + {n - 1}
  }

  /** The positions of the headers in hs. */
  function PositionsOf(hs: seq<EventHeader>): (s: set<nat>)
    ensures forall p :: p in s <==> exists k :: 0 <= k < |hs| && hs[k].position == p
  {
    if hs == [] then {} else PositionsOf(hs[..|hs| - 1]) + {Last(hs).position}
  }

  /** Appending a header adds its position. */
  lemma PositionsOfAppend(hs: seq<EventHeader>, h: EventHeader)
    ensures PositionsOf(hs + [h]) == PositionsOf(hs) + {h.position}
  {
    assert (hs + [h])[..|hs|] == hs;
  }

  /** Appending a header at a new position keeps the positions distinct. */
  lemma DistinctPositionsAppend(hs: seq<EventHeader>, h: EventHeader)
    requires DistinctPositions(hs) && h.position !in PositionsOf(hs)
    ensures DistinctPositions(hs + [h])
  {
    var longer := hs + [h];
    forall i, j | 0 <= i < j < |longer|
      ensures longer[i].position != longer[j].position
    {
      assert longer[i] == hs[i];
      if j == |hs| {
        assert hs[i].position in PositionsOf(hs);
      } else {
        assert longer[j] == hs[j];
      }
    }
  }

  /** Appending the header at the next position extends a chain prefix. */
  lemma ChainPrefixAppend(data: seq<byte>, hs: seq<EventHeader>, position: nat)
    requires IsChainPrefix(data, hs) && position + HeaderSize <= |data|
    requires hs == [] ==> position == FirstHeaderPosition
    requires hs != [] ==> position == Last(hs).nextEventPosition != 0
    ensures IsChainPrefix(data, hs + [HeaderAt(data, position)])
  {
    var longer := hs + [HeaderAt(data, position)];
    forall k | 0 <= k < |hs|
      ensures longer[k] == hs[k]
    {
    }
  }

  /** Appending the header at the next, unvisited position: what one turn of the indexing loop keeps. */
  lemma ExtendChain(data: seq<byte>, hs: seq<EventHeader>, position: nat)
    requires IsChainPrefix(data, hs) && DistinctPositions(hs)
    requires position + HeaderSize <= |data| && position !in PositionsOf(hs)
    requires hs == [] ==> position == FirstHeaderPosition
    requires hs != [] ==> position == Last(hs).nextEventPosition != 0
    ensures IsChainPrefix(data, hs + [HeaderAt(data, position)])
    ensures DistinctPositions(hs + [HeaderAt(data, position)])
    ensures PositionsOf(hs + [HeaderAt(data, position)]) == PositionsOf(hs) + {position}
  {
    ChainPrefixAppend(data, hs, position);
    PositionsOfAppend(hs, HeaderAt(data, position));
    DistinctPositionsAppend(hs, HeaderAt(data, position));
  }

  /** _parse_headers */
  method ParseHeaders(data: seq<byte>) returns (r: HeaderScan)
    ensures r.Indexed? ==> IsCompleteChain(data, r.headers) && DistinctPositions(r.headers)
    ensures r.Cycles? ==> && Revisits(data, r.headers) && DistinctPositions(r.headers)
                          && r.position == Last(r.headers).nextEventPosition
  {
    var headers: seq<EventHeader> := [];
    var position: nat := FirstHeaderPosition;
    var visited: set<nat> := {};
    while position + HeaderSize <= |data|
      invariant IsChainPrefix(data, headers) && DistinctPositions(headers)
      invariant visited == PositionsOf(headers) && visited <= Positions(|data|)
      invariant headers == [] ==> position == FirstHeaderPosition
      invariant headers != [] ==> position == Last(headers).nextEventPosition != 0
      decreases Positions(|data|) - visited
    {
      if position in visited {
        return Cycles(headers, position);
      }
      var header := HeaderAt(data, position);
      ExtendChain(data, headers, position);
      headers := headers + [header];
      visited := visited + {position};
      if header.nextEventPosition == 0 {
        return Indexed(headers);
      }
      position := header.nextEventPosition;
    }
    return Indexed(headers);
  }

  /** The chain is determined by the data: of two chain prefixes, the shorter starts the longer. */
  lemma {:induction false} ChainIsDetermined(data: seq<byte>, a: seq<EventHeader>, b: seq<EventHeader>)
    requires IsChainPrefix(data, a) && IsChainPrefix(data, b) && |a| <= |b|
    ensures a == b[..|a|]
  {
    if |a| > 1 {
      var n := |a| - 1;
      assert IsChainPrefix(data, a[..n]);
      ChainIsDetermined(data, a[..n], b);
      assert a[n].position == a[n - 1].nextEventPosition == b[n].position;
    }
  }

  /** A chain that goes on past a prefix did not stop after that prefix. */
  lemma ChainStopsOnlyAtEnd(data: seq<byte>, a: seq<EventHeader>, b: seq<EventHeader>)
    requires IsChainPrefix(data, a) && IsChainPrefix(data, b) && |a| < |b|
    ensures !Stops(data, a)
  {
    ChainIsDetermined(data, a, b);
    if a != [] {
      assert b[|a|].position == Last(a).nextEventPosition != 0;
    }
  }

  /** There is at most one complete chain. */
  lemma CompleteChainIsUnique(data: seq<byte>, a: seq<EventHeader>, b: seq<EventHeader>)
    requires IsCompleteChain(data, a) && IsCompleteChain(data, b)
    ensures a == b
  {
    if |a| < |b| {
      ChainStopsOnlyAtEnd(data, a, b);
      assert false;
    } else if |b| < |a| {
      ChainStopsOnlyAtEnd(data, b, a);
      assert false;
    } else {
      ChainIsDetermined(data, a, b);
    }
  }

  /** One more turn of a cycle: appending the revisited header gives a chain that revisits again. */
  lemma CycleContinues(data: seq<byte>, hs: seq<EventHeader>) returns (longer: seq<EventHeader>)
    requires Revisits(data, hs)
    ensures |longer| == |hs| + 1 && Revisits(data, longer)
  {
    var k :| 0 <= k < |hs| && hs[k].position == Last(hs).nextEventPosition;
    var n := |hs|;
    assert hs[k] == HeaderAt(data, hs[k].position);
    ChainPrefixAppend(data, hs, hs[k].position);
    longer := hs + [hs[k]];
    assert Last(longer) == hs[k];
    if k < n - 1 {
      assert longer[k + 1] == hs[k + 1];
      assert longer[k + 1].position == Last(longer).nextEventPosition;
    } else {
      assert longer[k] == hs[k];
      assert longer[k].position == Last(longer).nextEventPosition;
    }
  }

  /** A chain that revisits a position never stops: it extends by any number of headers. */
  lemma {:induction false} CycleNeverEnds(data: seq<byte>, hs: seq<EventHeader>, n: nat)
    requires Revisits(data, hs)
    ensures exists ext :: |ext| == |hs| + n && Revisits(data, ext)
    decreases n
  {
    if n == 0 {
      assert Revisits(data, hs);
    } else {
      var longer := CycleContinues(data, hs);
      CycleNeverEnds(data, longer, n - 1);
    }
  }

  /** When the chain revisits a position no complete chain exists: the source's loop cannot end. */
  lemma CycleHasNoCompleteChain(data: seq<byte>, hs: seq<EventHeader>, c: seq<EventHeader>)
    requires Revisits(data, hs) && IsChainPrefix(data, c)
    ensures !Stops(data, c)
  {
    if |c| >= |hs| {
      CycleNeverEnds(data, hs, |c| - |hs| + 1);
      var ext: seq<EventHeader> :| |ext| == |c| + 1 && Revisits(data, ext);
      ChainIsDetermined(data, c, ext);
      assert c != [] ==> ext[|c|].position == Last(c).nextEventPosition;
    } else {
      ChainIsDetermined(data, c, hs);
      assert c != [] ==> hs[|c|].position == Last(c).nextEventPosition;
    }
  }

  /** When every next-event position is 0 or past its own header, positions strictly increase. */
  lemma {:induction false} ForwardChainIncreases(data: seq<byte>, hs: seq<EventHeader>)
    requires IsChainPrefix(data, hs) && MovesForward(hs)
    ensures forall i, j :: 0 <= i < j < |hs| ==> hs[i].position < hs[j].position
  {
    if |hs| > 1 {
      var n := |hs| - 1;
      assert IsChainPrefix(data, hs[..n]) && MovesForward(hs[..n]);
      ForwardChainIncreases(data, hs[..n]);
      assert hs[n - 1].position < hs[n].position;
      forall i, j | 0 <= i < j < |hs|
        ensures hs[i].position < hs[j].position
      {
        assert hs[..n][i] == hs[i];
        if j < n {
          assert hs[..n][j] == hs[j];
        } else if i < n - 1 {
          assert hs[..n][n - 1] == hs[n - 1];
        }
      }
    }
  }

  /** A forward-moving chain never revisits a position, so the loop terminates. */
  lemma ForwardChainNeverCycles(data: seq<byte>, hs: seq<EventHeader>)
    requires IsChainPrefix(data, hs) && MovesForward(hs)
    ensures !Revisits(data, hs)
  {
    ForwardChainIncreases(data, hs);
  }
}
