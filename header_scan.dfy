/**
 * The main-header scan: walks the marker segments from offset 0, steps over
 * every length-prefixed segment, decodes the TLM segment into tile-part
 * lengths and stops at the first SOT marker, whose offset is the length of
 * the main header.
 */
module HeaderScan {
  import opened Results
  import opened Bytes
  import opened Markers
  import opened Tlm
  import opened Failures

  /** Where the scan loop ends: main_header_len (0 unless an SOT was reached) and the tile-part lengths collected. */
  datatype HeaderEnd = HeaderEnd(mainHeaderLen: nat, tilePartLens: seq<nat>)

  /**
   * Where the TLM payload read that starts at `start` with segment length
   * `size` stops: `size - 2` bytes on, cut short by the end of the file;
   * a length of 1 asks for a read of -1 bytes, which reads to the end.
   */
  function PayloadEnd(fileLen: nat, start: nat, size: nat): (end: nat)
    requires start <= fileLen && size >= 1
    ensures start <= end <= fileLen
    ensures size >= 2 ==> end == if start + size - 2 <= fileLen then start + size - 2 else fileLen
    ensures size == 1 ==> end == fileLen
  {
    if size == 1 || start + size - 2 > fileLen then fileLen else start + size - 2
  }

  /** What one turn of the scan loop does: end the scan with a result, or go on from a new cursor. */
  datatype Step =
    | Stop(result: Result<HeaderEnd, Failure>)
    | Next(cursor: nat, lens: seq<nat>)

  /** One turn of the scan loop at file offset `cursor` with the lengths `lens` collected so far. */
  function ScanStep(file: seq<byte>, cursor: nat, lens: seq<nat>): (s: Step)
    ensures s.Next? ==> cursor + 2 <= |file| && s.cursor >= cursor + 2
  {
    match ReadU16(file, cursor)
    case None => Stop(Ok(HeaderEnd(0, lens)))
    case Some(code) =>
      match FromCode(code)
      case None => Stop(Err(UnknownMarker(code, cursor)))
      case Some(m) =>
        if m == SOT then Stop(Ok(HeaderEnd(cursor, lens)))
        else if IsEmpty(m) then Next(cursor + 2, lens)
        else
          match ReadU16(file, cursor + 2)
          case None => Stop(Ok(HeaderEnd(0, lens)))
          case Some(size) =>
            if m != TLM then Next(cursor + 2 + size, lens)
            else if |lens| > 0 then Stop(Err(DuplicateTlm(cursor)))
            else if size == 0 then Stop(Err(BadTlmLength(cursor)))
            else
              var end := PayloadEnd(|file|, cursor + 4, size);
              match TlmLengths(file[cursor + 4..end])
              case Err(PayloadTooShort) => Stop(Err(TlmTooShort(cursor)))
              case Err(RaggedRecords) => Stop(Err(RaggedTlm(cursor)))
              case Ok(entries) => Next(end, lens + entries)
  }

  /** The scan loop from file offset `cursor` with the lengths `lens` already collected. */
  function ScanFrom(file: seq<byte>, cursor: nat, lens: seq<nat>): Result<HeaderEnd, Failure>
    decreases |file| - cursor
  {
    match ScanStep(file, cursor, lens)
    case Stop(r) => r
    case Next(next, more) => ScanFrom(file, next, more)
  }

  /** A turn that goes on hands the scan over to the next cursor. */
  lemma ScanFromNext(file: seq<byte>, cursor: nat, lens: seq<nat>, next: nat, more: seq<nat>)
    requires ScanStep(file, cursor, lens) == Next(next, more)
    ensures ScanFrom(file, cursor, lens) == ScanFrom(file, next, more)
  {
  }

  /** The main-header scan loop, run over the whole file from offset 0. */
  method ScanMainHeader(file: seq<byte>) returns (r: Result<HeaderEnd, Failure>)
    ensures r == ScanFrom(file, 0, [])
  {
    var tilePartLens: seq<nat> := [];
    var mainHeaderLen: nat := 0;
    var cursor: nat := 0;
    while true
      invariant mainHeaderLen == 0
      invariant ScanFrom(file, cursor, tilePartLens) == ScanFrom(file, 0, [])
      decreases |file| - cursor
    {
      var markerCode := ReadU16(file, cursor);
      if markerCode.None? {
        break;
      }
      var marker := FromCode(markerCode.value);
      if marker.None? {
        return Err(UnknownMarker(markerCode.value, cursor));
      }
      var m := marker.value;
      if m == SOT {
        mainHeaderLen := cursor;
        break;
      }
      if IsEmpty(m) {
        cursor := cursor + 2;
        continue;
      }
      var sizeField := ReadU16(file, cursor + 2);
      if sizeField.None? {
        break;
      }
      var segmentSize := sizeField.value;
      if m != TLM {
        cursor := cursor + 2 + segmentSize;
        continue;
      }
      if |tilePartLens| > 0 {
        return Err(DuplicateTlm(cursor));
      }
      if segmentSize == 0 {
        return Err(BadTlmLength(cursor));
      }
      var end := PayloadEnd(|file|, cursor + 4, segmentSize);
      var decoded := DecodeTlm(file[cursor + 4..end]);
      match decoded {
        case Err(PayloadTooShort) =>
          return Err(TlmTooShort(cursor));
        case Err(RaggedRecords) =>
          return Err(RaggedTlm(cursor));
        case Ok(entries) =>
          tilePartLens := tilePartLens + entries;
          cursor := end;
      }
    }
    return Ok(HeaderEnd(mainHeaderLen, tilePartLens));
  }

  /**
   * One step of the scan: an exhausted file or a short length field ends it
   * with no main-header length, an SOT ends it at its own offset, a
   * length-less marker is stepped over, a length-prefixed segment other than
   * TLM is stepped over by its 2-byte length field and `size - 2` payload
   * bytes, and a TLM after one that yielded lengths is a failure.
   */
  lemma ScanStepCases(file: seq<byte>, cursor: nat, lens: seq<nat>)
    ensures cursor + 2 > |file| ==> ScanFrom(file, cursor, lens) == Ok(HeaderEnd(0, lens))
    ensures cursor + 2 <= |file| ==>
      var code := BigEndian(file[cursor..cursor + 2]);
      && (code !in KnownCodes ==> ScanFrom(file, cursor, lens) == Err(UnknownMarker(code, cursor)))
      && (code == Code(SOT) ==> ScanFrom(file, cursor, lens) == Ok(HeaderEnd(cursor, lens)))
      && (code in EmptyCodes ==> ScanFrom(file, cursor, lens) == ScanFrom(file, cursor + 2, lens))
      && (code in KnownCodes - EmptyCodes - {Code(SOT)} && cursor + 4 > |file| ==>
            ScanFrom(file, cursor, lens) == Ok(HeaderEnd(0, lens)))
      && (code in KnownCodes - EmptyCodes - {Code(SOT), Code(TLM)} && cursor + 4 <= |file| ==>
            var size := BigEndian(file[cursor + 2..cursor + 4]);
            ScanFrom(file, cursor, lens) == ScanFrom(file, cursor + 4 + (size - 2), lens))
      && (code == Code(TLM) && cursor + 4 <= |file| && lens != [] ==>
            ScanFrom(file, cursor, lens) == Err(DuplicateTlm(cursor)))
  {
    if cursor + 2 <= |file| {
      ReadU16IsBigEndian(file, cursor);
    }
    if cursor + 4 <= |file| {
      ReadU16IsBigEndian(file, cursor + 2);
    }
  }

  /**
   * The scan keeps at most three lengths, and once it holds any it never
   * takes more: the lengths come from the first TLM segment that yields any.
   */
  lemma {:induction false} ScanKeepsFirstLengths(file: seq<byte>, cursor: nat, lens: seq<nat>)
    requires |lens| <= 3
    ensures ScanFrom(file, cursor, lens).Ok? ==>
      var found := ScanFrom(file, cursor, lens).value.tilePartLens;
      && |found| <= 3
      && (lens != [] ==> found == lens)
    decreases |file| - cursor
  {
    match ReadU16(file, cursor)
    case None =>
    case Some(code) =>
      match FromCode(code)
      case None =>
      case Some(m) =>
        if m == SOT {
        } else if IsEmpty(m) {
          ScanKeepsFirstLengths(file, cursor + 2, lens);
        } else {
          match ReadU16(file, cursor + 2)
          case None =>
          case Some(size) =>
            if m != TLM {
              ScanKeepsFirstLengths(file, cursor + 2 + size, lens);
            } else if |lens| == 0 && size != 0 {
              var end := PayloadEnd(|file|, cursor + 4, size);
              match TlmLengths(file[cursor + 4..end])
              case Err(_) =>
              case Ok(entries) =>
                assert lens + entries == entries;
                ScanKeepsFirstLengths(file, end, entries);
            }
        }
  }

  /**
   * A TLM segment met before any lengths are held: a length field of 0 is
   * refused, a payload without an Stlm byte or with a ragged record area
   * fails, and otherwise the scan goes on after the payload with the
   * decoded lengths.
   */
  lemma ScanTlmCases(file: seq<byte>, cursor: nat)
    requires cursor + 4 <= |file| && BigEndian(file[cursor..cursor + 2]) == Code(TLM)
    ensures var size := BigEndian(file[cursor + 2..cursor + 4]);
      && (size == 0 ==> ScanFrom(file, cursor, []) == Err(BadTlmLength(cursor)))
      && (size > 0 ==>
            var end := PayloadEnd(|file|, cursor + 4, size);
            var payload := file[cursor + 4..end];
            && (|payload| < 2 ==> ScanFrom(file, cursor, []) == Err(TlmTooShort(cursor)))
            && (|payload| >= 2 && (|payload| - 2) % RecordWidth(LayoutOf(payload[1])) != 0 ==>
                  ScanFrom(file, cursor, []) == Err(RaggedTlm(cursor)))
            && (TlmLengths(payload).Ok? ==>
                  ScanFrom(file, cursor, []) == ScanFrom(file, end, TlmLengths(payload).value)))
  {
    ReadU16IsBigEndian(file, cursor);
    ReadU16IsBigEndian(file, cursor + 2);
    FromCodeOfCode(TLM);
    var size := BigEndian(file[cursor + 2..cursor + 4]);
    if size > 0 {
      var end := PayloadEnd(|file|, cursor + 4, size);
      var payload := file[cursor + 4..end];
      TlmLengthsCases(payload);
      if TlmLengths(payload).Ok? {
        assert [] + TlmLengths(payload).value == TlmLengths(payload).value;
        ScanFromNext(file, cursor, [], end, TlmLengths(payload).value);
      }
    }
  }

  /** The scan fails only with a failure about a marker segment of the main header. */
  lemma {:induction false} ScanFailsInHeader(file: seq<byte>, cursor: nat, lens: seq<nat>)
    ensures ScanFrom(file, cursor, lens).Err? ==>
      var e := ScanFrom(file, cursor, lens).error;
      e.UnknownMarker? || e.DuplicateTlm? || e.BadTlmLength? || e.TlmTooShort? || e.RaggedTlm?
    decreases |file| - cursor
  {
    match ScanStep(file, cursor, lens)
    case Stop(_) =>
    case Next(next, more) =>
      ScanFailsInHeader(file, next, more);
  }

  /** A main-header length the scan reports is the offset of an SOT marker at or after where it started. */
  lemma {:induction false} ScanEndsAtSot(file: seq<byte>, cursor: nat, lens: seq<nat>)
    ensures ScanFrom(file, cursor, lens).Ok? ==>
      var mainHeaderLen := ScanFrom(file, cursor, lens).value.mainHeaderLen;
      mainHeaderLen != 0 ==>
        cursor <= mainHeaderLen && ReadU16(file, mainHeaderLen) == Some(Code(SOT))
    decreases |file| - cursor
  {
    match ReadU16(file, cursor)
    case None =>
    case Some(code) =>
      match FromCode(code)
      case None =>
      case Some(m) =>
        if m == SOT {
        } else if IsEmpty(m) {
          ScanEndsAtSot(file, cursor + 2, lens);
        } else {
          match ReadU16(file, cursor + 2)
          case None =>
          case Some(size) =>
            if m != TLM {
              ScanEndsAtSot(file, cursor + 2 + size, lens);
            } else if |lens| == 0 && size != 0 {
              var end := PayloadEnd(|file|, cursor + 4, size);
              match TlmLengths(file[cursor + 4..end])
              case Err(_) =>
              case Ok(entries) =>
                ScanEndsAtSot(file, end, lens + entries);
            }
        }
  }

  /** A marker segment of a main header: its marker and, for a length-prefixed marker, its payload. */
  datatype Segment = Segment(marker: Marker, payload: seq<byte>)

  /** A segment whose length field can hold its size: 2 bytes of length field plus the payload. */
  predicate Encodable(s: Segment) {
    |s.payload| + 2 < 0x10000
  }

  /** A segment the scan steps over: neither SOT nor TLM, and no payload after a length-less marker. */
  predicate Skippable(s: Segment) {
    Encodable(s) && s.marker != SOT && s.marker != TLM && (IsEmpty(s.marker) ==> s.payload == [])
  }

  /** The bytes of a segment: its code, then for a length-prefixed marker the length field and the payload. */
  function SegmentBytes(s: Segment): (b: seq<byte>)
    requires Encodable(s)
    ensures |b| == if IsEmpty(s.marker) then 2 else 4 + |s.payload|
  {
    U16Bytes(Code(s.marker))
      + (if IsEmpty(s.marker) then [] else U16Bytes(|s.payload| + 2) + s.payload)
  }

  function SegmentsBytes(segs: seq<Segment>): seq<byte>
    requires forall i :: 0 <= i < |segs| ==> Skippable(segs[i])
  {
    if segs == [] then [] else
      assert Skippable(segs[0]);
      SegmentBytes(segs[0]) + SegmentsBytes(segs[1..])
  }

  /** The middle part of a concatenation. */
  lemma Infix(a: seq<byte>, x: seq<byte>, b: seq<byte>)
    ensures (a + x + b)[|a|..|a| + |x|] == x
  {
  }

  /** A file that holds x + y at offset p holds x at p and y right after it. */
  lemma SliceSplit(file: seq<byte>, p: nat, x: seq<byte>, y: seq<byte>)
    requires p + |x| + |y| <= |file| && file[p..p + |x| + |y|] == x + y
    ensures file[p..p + |x|] == x
    ensures file[p + |x|..p + |x| + |y|] == y
  {
    assert file[p..p + |x|] == (x + y)[..|x|];
    assert file[p + |x|..p + |x| + |y|] == (x + y)[|x|..];
  }

  /** The scan steps over a whole skippable segment without touching the lengths. */
  lemma ScanSkipsSegment(file: seq<byte>, cursor: nat, s: Segment, lens: seq<nat>)
    requires Skippable(s)
    requires cursor + |SegmentBytes(s)| <= |file|
    requires file[cursor..cursor + |SegmentBytes(s)|] == SegmentBytes(s)
    ensures ScanStep(file, cursor, lens) == Next(cursor + |SegmentBytes(s)|, lens)
  {
    var code := U16Bytes(Code(s.marker));
    FromCodeOfCode(s.marker);
    if IsEmpty(s.marker) {
      assert SegmentBytes(s) == code;
      ReadU16OfU16Bytes(file, cursor, Code(s.marker));
    } else {
      var size := U16Bytes(|s.payload| + 2);
      assert SegmentBytes(s) == code + (size + s.payload);
      SliceSplit(file, cursor, code, size + s.payload);
      ReadU16OfU16Bytes(file, cursor, Code(s.marker));
      SliceSplit(file, cursor + 2, size, s.payload);
      ReadU16OfU16Bytes(file, cursor + 2, |s.payload| + 2);
    }
  }

  /** The scan steps over a run of skippable segments without touching the lengths. */
  lemma {:induction false} ScanSkipsSegments(file: seq<byte>, cursor: nat, segs: seq<Segment>, lens: seq<nat>, target: nat)
    requires forall i :: 0 <= i < |segs| ==> Skippable(segs[i])
    requires target == cursor + |SegmentsBytes(segs)| <= |file|
    requires file[cursor..target] == SegmentsBytes(segs)
    ensures ScanFrom(file, cursor, lens) == ScanFrom(file, target, lens)
    decreases |segs|
  {
    if segs != [] {
      var first := SegmentBytes(segs[0]);
      var rest := SegmentsBytes(segs[1..]);
      var next := cursor + |first|;
      assert SegmentsBytes(segs) == first + rest;
      SliceSplit(file, cursor, first, rest);
      ScanSkipsSegment(file, cursor, segs[0], lens);
      ScanFromNext(file, cursor, lens, next, lens);
      ScanSkipsSegments(file, next, segs[1..], lens, target);
    }
  }

  /** A TLM segment met before any lengths are held is decoded and its lengths taken. */
  lemma ScanReadsTlm(file: seq<byte>, cursor: nat, payload: seq<byte>, entries: seq<nat>)
    requires Encodable(Segment(TLM, payload))
    requires TlmLengths(payload) == Ok(entries)
    requires cursor + 4 + |payload| <= |file|
    requires file[cursor..cursor + 4 + |payload|] == SegmentBytes(Segment(TLM, payload))
    ensures ScanStep(file, cursor, []) == Next(cursor + 4 + |payload|, entries)
  {
    var code := U16Bytes(Code(TLM));
    var size := U16Bytes(|payload| + 2);
    var end := cursor + 4 + |payload|;
    assert SegmentBytes(Segment(TLM, payload)) == code + (size + payload);
    SliceSplit(file, cursor, code, size + payload);
    SliceSplit(file, cursor + 2, size, payload);
    ReadU16OfU16Bytes(file, cursor, Code(TLM));
    FromCodeOfCode(TLM);
    ReadU16OfU16Bytes(file, cursor + 2, |payload| + 2);
    assert PayloadEnd(|file|, cursor + 4, |payload| + 2) == end;
    assert file[cursor + 4..end] == payload;
    assert [] + entries == entries;
  }

  /** The scan stops at an SOT marker and reports its offset as the main-header length. */
  lemma ScanStopsAtSot(file: seq<byte>, cursor: nat, lens: seq<nat>)
    requires cursor + 2 <= |file| && file[cursor..cursor + 2] == U16Bytes(Code(SOT))
    ensures ScanFrom(file, cursor, lens) == Ok(HeaderEnd(cursor, lens))
  {
    ReadU16OfU16Bytes(file, cursor, Code(SOT));
    FromCodeOfCode(SOT);
  }

  /** Skippable segments from `cursor`, then an SOT: the scan reports the SOT's offset. */
  lemma ScanReachesSot(file: seq<byte>, cursor: nat, segs: seq<Segment>, lens: seq<nat>, sotAt: nat)
    requires forall i :: 0 <= i < |segs| ==> Skippable(segs[i])
    requires sotAt == cursor + |SegmentsBytes(segs)| && sotAt + 2 <= |file|
    requires file[cursor..sotAt] == SegmentsBytes(segs)
    requires file[sotAt..sotAt + 2] == U16Bytes(Code(SOT))
    ensures ScanFrom(file, cursor, lens) == Ok(HeaderEnd(sotAt, lens))
  {
    ScanSkipsSegments(file, cursor, segs, lens, sotAt);
    ScanStopsAtSot(file, sotAt, lens);
  }

  /** A TLM segment at `tlmAt`, then skippable segments, then an SOT: the scan reports the SOT's offset and the TLM's lengths. */
  lemma ScanFromTlm(
    file: seq<byte>, tlmAt: nat, tlmPayload: seq<byte>, after: seq<Segment>, entries: seq<nat>, sotAt: nat)
    requires Encodable(Segment(TLM, tlmPayload))
    requires TlmLengths(tlmPayload) == Ok(entries)
    requires forall i :: 0 <= i < |after| ==> Skippable(after[i])
    requires sotAt == tlmAt + 4 + |tlmPayload| + |SegmentsBytes(after)| && sotAt + 2 <= |file|
    requires file[tlmAt..tlmAt + 4 + |tlmPayload|] == SegmentBytes(Segment(TLM, tlmPayload))
    requires file[tlmAt + 4 + |tlmPayload|..sotAt] == SegmentsBytes(after)
    requires file[sotAt..sotAt + 2] == U16Bytes(Code(SOT))
    ensures ScanFrom(file, tlmAt, []) == Ok(HeaderEnd(sotAt, entries))
  {
    var afterAt := tlmAt + 4 + |tlmPayload|;
    ScanReadsTlm(file, tlmAt, tlmPayload, entries);
    ScanFromNext(file, tlmAt, [], afterAt, entries);
    ScanReachesSot(file, afterAt, after, entries, sotAt);
  }

  /** The bytes of a main header: skippable segments, one TLM segment, more skippable segments. */
  function MainHeaderBytes(before: seq<Segment>, tlmPayload: seq<byte>, after: seq<Segment>): seq<byte>
    requires forall i :: 0 <= i < |before| ==> Skippable(before[i])
    requires forall i :: 0 <= i < |after| ==> Skippable(after[i])
    requires Encodable(Segment(TLM, tlmPayload))
  {
    SegmentsBytes(before) + SegmentBytes(Segment(TLM, tlmPayload)) + SegmentsBytes(after)
  }

  /** Where the four parts of `pre + tlm + post + sot + rest` lie. */
  lemma PartsOfHeader(pre: seq<byte>, tlm: seq<byte>, post: seq<byte>, sot: seq<byte>, rest: seq<byte>)
    ensures var file := pre + tlm + post + sot + rest;
      var afterAt := |pre| + |tlm|;
      var sotAt := afterAt + |post|;
      && file[0..|pre|] == pre
      && file[|pre|..afterAt] == tlm
      && file[afterAt..sotAt] == post
      && file[sotAt..sotAt + |sot|] == sot
  {
    var file := pre + tlm + post + sot + rest;
    assert file == [] + pre + (tlm + post + sot + rest);
    Infix([], pre, tlm + post + sot + rest);
    assert file == pre + tlm + (post + sot + rest);
    Infix(pre, tlm, post + sot + rest);
    assert file == (pre + tlm) + post + (sot + rest);
    Infix(pre + tlm, post, sot + rest);
    Infix(pre + tlm + post, sot, rest);
  }

  /**
   * A file that holds, from offset 0, skippable segments, one TLM segment,
   * more skippable segments and then an SOT: the scan reports the SOT's
   * offset as the main-header length and the lengths the TLM payload
   * decodes to.
   */
  lemma ScanOfHeaderLayout(
    file: seq<byte>, before: seq<Segment>, tlmPayload: seq<byte>, after: seq<Segment>, entries: seq<nat>,
    tlmAt: nat, sotAt: nat)
    requires forall i :: 0 <= i < |before| ==> Skippable(before[i])
    requires forall i :: 0 <= i < |after| ==> Skippable(after[i])
    requires Encodable(Segment(TLM, tlmPayload))
    requires TlmLengths(tlmPayload) == Ok(entries)
    requires tlmAt == |SegmentsBytes(before)|
    requires sotAt == tlmAt + 4 + |tlmPayload| + |SegmentsBytes(after)| && sotAt + 2 <= |file|
    requires file[0..tlmAt] == SegmentsBytes(before)
    requires file[tlmAt..tlmAt + 4 + |tlmPayload|] == SegmentBytes(Segment(TLM, tlmPayload))
    requires file[tlmAt + 4 + |tlmPayload|..sotAt] == SegmentsBytes(after)
    requires file[sotAt..sotAt + 2] == U16Bytes(Code(SOT))
    ensures ScanFrom(file, 0, []) == Ok(HeaderEnd(sotAt, entries))
  {
    ScanSkipsSegments(file, 0, before, [], tlmAt);
    ScanFromTlm(file, tlmAt, tlmPayload, after, entries, sotAt);
  }

  /**
   * For a codestream made of a main header with one TLM segment, then an
   * SOT, the scan reports the SOT's offset as the main-header length and the
   * lengths the TLM payload decodes to, in payload order.
   */
  lemma ScanOfWellFormedHeader(
    before: seq<Segment>, tlmPayload: seq<byte>, after: seq<Segment>, rest: seq<byte>, entries: seq<nat>)
    requires forall i :: 0 <= i < |before| ==> Skippable(before[i])
    requires forall i :: 0 <= i < |after| ==> Skippable(after[i])
    requires Encodable(Segment(TLM, tlmPayload))
    requires TlmLengths(tlmPayload) == Ok(entries)
    ensures var header := MainHeaderBytes(before, tlmPayload, after);
      ScanFrom(header + U16Bytes(Code(SOT)) + rest, 0, []) == Ok(HeaderEnd(|header|, entries))
  {
    var header := MainHeaderBytes(before, tlmPayload, after);
    var file := header + U16Bytes(Code(SOT)) + rest;
    var pre := SegmentsBytes(before);
    var tlm := SegmentBytes(Segment(TLM, tlmPayload));
    PartsOfHeader(pre, tlm, SegmentsBytes(after), U16Bytes(Code(SOT)), rest);
    ScanOfHeaderLayout(file, before, tlmPayload, after, entries, |pre|, |header|);
  }
}
