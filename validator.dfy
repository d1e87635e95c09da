/**
 * The whole validation of a codestream: scan the main header, demand exactly
 * three tile-part lengths and a main header that ends at an SOT past offset 0,
 * then check the main header followed by each of the three tile-parts for
 * the forbidden pattern, tile-part by tile-part.
 */
module Validator {
  import opened Results
  import opened Bytes
  import opened Markers
  import opened Tlm
  import opened Failures
  import opened HeaderScan
  import opened Triggers

  /** What a successful validation found: the values it prints. */
  datatype Summary = Summary(mainHeaderLen: nat, tilePartLens: seq<nat>)

  /** The file offsets of the three tile-parts: each starts where the one before it ends. */
  function TileOffsets(mainHeaderLen: nat, lens: seq<nat>): (offsets: seq<nat>)
    requires |lens| == 3
    ensures |offsets| == 3 && offsets[0] == mainHeaderLen
    ensures forall k :: 0 < k < 3 ==> offsets[k] == offsets[k - 1] + lens[k - 1]
  {
    [mainHeaderLen, mainHeaderLen + lens[0], mainHeaderLen + lens[0] + lens[1]]
  }

  /** The check of one tile-part, with its verdict turned into a failure. */
  function TileCheck(file: seq<byte>, mainHeaderLen: nat, offset: nat, length: nat): Option<Failure> {
    match ScanPairs(file, TriggerPositions(mainHeaderLen, offset, length))
    case Clean => None
    case Forbidden(p) => Some(ForbiddenPattern(p))
    case Unreadable(p) => Some(ReadError(p))
  }

  /** The checks of the three tile-parts, in order; the first failure ends them. */
  function TilesCheck(file: seq<byte>, mainHeaderLen: nat, lens: seq<nat>): Option<Failure>
    requires |lens| == 3
  {
    var offsets := TileOffsets(mainHeaderLen, lens);
    match TileCheck(file, mainHeaderLen, offsets[0], lens[0])
    case Some(e) => Some(e)
    case None =>
      match TileCheck(file, mainHeaderLen, offsets[1], lens[1])
      case Some(e) => Some(e)
      case None => TileCheck(file, mainHeaderLen, offsets[2], lens[2])
  }

  /** What validating the file ends with. */
  function Validation(file: seq<byte>): Result<Summary, Failure> {
    match ScanFrom(file, 0, [])
    case Err(e) => Err(e)
    case Ok(HeaderEnd(mainHeaderLen, lens)) =>
      if |lens| != 3 then Err(IncompleteLengthTable(|lens|))
      else if mainHeaderLen == 0 then Err(InvalidMainHeaderLength(mainHeaderLen))
      else
        match TilesCheck(file, mainHeaderLen, lens)
        case Some(e) => Err(e)
        case None => Ok(Summary(mainHeaderLen, lens))
  }

  /** The three check_tile_part calls of validate, each tile-part starting where the one before ends. */
  method CheckTileParts(file: seq<byte>, mainHeaderLen: nat, tilePartsLen: seq<nat>) returns (e: Option<Failure>)
    requires |tilePartsLen| == 3
    ensures e == TilesCheck(file, mainHeaderLen, tilePartsLen)
  {
    var verdict := CheckTilePart(file, mainHeaderLen, mainHeaderLen, tilePartsLen[0]);
    if verdict != Clean {
      return Some(if verdict.Forbidden? then ForbiddenPattern(verdict.offset) else ReadError(verdict.offset));
    }
    verdict := CheckTilePart(file, mainHeaderLen, mainHeaderLen + tilePartsLen[0], tilePartsLen[1]);
    if verdict != Clean {
      return Some(if verdict.Forbidden? then ForbiddenPattern(verdict.offset) else ReadError(verdict.offset));
    }
    verdict := CheckTilePart(file, mainHeaderLen, mainHeaderLen + tilePartsLen[0] + tilePartsLen[1], tilePartsLen[2]);
    if verdict != Clean {
      return Some(if verdict.Forbidden? then ForbiddenPattern(verdict.offset) else ReadError(verdict.offset));
    }
    return None;
  }

  /** validate: the header scan, the two checks on its result, then the three tile-part checks. */
  method Validate(file: seq<byte>) returns (r: Result<Summary, Failure>)
    ensures r == Validation(file)
  {
    var scanned := ScanMainHeader(file);
    if scanned.Err? {
      return Err(scanned.error);
    }
    var tilePartsLen := scanned.value.tilePartLens;
    var mainHeaderLen := scanned.value.mainHeaderLen;
    if |tilePartsLen| != 3 {
      return Err(IncompleteLengthTable(|tilePartsLen|));
    }
    if mainHeaderLen <= 0 {
      return Err(InvalidMainHeaderLength(mainHeaderLen));
    }
    var failure := CheckTileParts(file, mainHeaderLen, tilePartsLen);
    if failure.Some? {
      return Err(failure.value);
    }
    return Ok(Summary(mainHeaderLen, tilePartsLen));
  }

  /**
   * A file passes exactly when the scan ends at an SOT past offset 0 with
   * three tile-part lengths and all three tile-parts check clean.
   */
  lemma ValidationOk(file: seq<byte>)
    ensures Validation(file).Ok? <==>
      && ScanFrom(file, 0, []).Ok?
      && var found := ScanFrom(file, 0, []).value;
      && |found.tilePartLens| == 3
      && found.mainHeaderLen > 0
      && var offsets := TileOffsets(found.mainHeaderLen, found.tilePartLens);
      && forall k :: 0 <= k < 3 ==>
           ScanPairs(file, TriggerPositions(found.mainHeaderLen, offsets[k], found.tilePartLens[k])) == Clean
    ensures Validation(file).Ok? ==>
      && Validation(file).value == Summary(ScanFrom(file, 0, []).value.mainHeaderLen, ScanFrom(file, 0, []).value.tilePartLens)
      && ReadU16(file, Validation(file).value.mainHeaderLen) == Some(Code(SOT))
  {
    ScanEndsAtSot(file, 0, []);
  }

  /**
   * After a scan that succeeds, a length count other than three is reported
   * first; only with three lengths is a main-header length of 0 reported.
   */
  lemma ValidationChecksScanResult(file: seq<byte>)
    requires ScanFrom(file, 0, []).Ok?
    ensures var found := ScanFrom(file, 0, []).value;
      |found.tilePartLens| != 3 ==> Validation(file) == Err(IncompleteLengthTable(|found.tilePartLens|))
    ensures var found := ScanFrom(file, 0, []).value;
      |found.tilePartLens| == 3 && found.mainHeaderLen == 0 ==> Validation(file) == Err(InvalidMainHeaderLength(0))
  {
  }

  /**
   * A forbidden pattern or read error is reported for the first tile-part
   * whose check fails, after the tile-parts before it checked clean.
   */
  lemma ValidationFailsAtFirstTile(file: seq<byte>)
    requires Validation(file).Err?
    requires Validation(file).error.ForbiddenPattern? || Validation(file).error.ReadError?
    ensures ScanFrom(file, 0, []).Ok?
    ensures var found := ScanFrom(file, 0, []).value;
      var offsets := TileOffsets(found.mainHeaderLen, found.tilePartLens);
      && |found.tilePartLens| == 3 && found.mainHeaderLen > 0
      && (exists k :: 0 <= k < 3
           && (forall j :: 0 <= j < k ==> TileCheck(file, found.mainHeaderLen, offsets[j], found.tilePartLens[j]) == None)
           && TileCheck(file, found.mainHeaderLen, offsets[k], found.tilePartLens[k]) == Some(Validation(file).error))
  {
    ScanFailsInHeader(file, 0, []);
    var found := ScanFrom(file, 0, []).value;
    var offsets := TileOffsets(found.mainHeaderLen, found.tilePartLens);
    var mhl := found.mainHeaderLen;
    var lens := found.tilePartLens;
    if TileCheck(file, mhl, offsets[0], lens[0]).Some? {
      assert TileCheck(file, mhl, offsets[0], lens[0]) == Some(Validation(file).error);
    } else if TileCheck(file, mhl, offsets[1], lens[1]).Some? {
      assert TileCheck(file, mhl, offsets[1], lens[1]) == Some(Validation(file).error);
    } else {
      assert TileCheck(file, mhl, offsets[2], lens[2]) == Some(Validation(file).error);
    }
  }

  /**
   * A codestream whose main header holds one TLM segment with three
   * records, followed by tile-parts that check clean, passes, and the
   * validation reports the main header's length and the three lengths.
   */
  lemma ValidationOfWellFormed(
    before: seq<Segment>, tlmPayload: seq<byte>, after: seq<Segment>, rest: seq<byte>, entries: seq<nat>)
    requires forall i :: 0 <= i < |before| ==> Skippable(before[i])
    requires forall i :: 0 <= i < |after| ==> Skippable(after[i])
    requires Encodable(Segment(TLM, tlmPayload))
    requires TlmLengths(tlmPayload) == Ok(entries) && |entries| == 3
    requires var header := MainHeaderBytes(before, tlmPayload, after);
      TilesCheck(header + U16Bytes(Code(SOT)) + rest, |header|, entries) == None
    ensures var header := MainHeaderBytes(before, tlmPayload, after);
      Validation(header + U16Bytes(Code(SOT)) + rest) == Ok(Summary(|header|, entries))
  {
    ScanOfWellFormedHeader(before, tlmPayload, after, rest, entries);
  }
}
