/**
 * The forbidden-pattern scan of one tile-part. The main header followed by
 * the tile-part is read as one virtual byte stream; at every virtual offset
 * 254, 254 + 256, 254 + 512, ... below the stream's length the byte there and
 * the byte after it must not both be 0xFF.
 */
module Triggers {
  import opened Results
  import opened Bytes

  /** The file offsets of the two bytes checked at one trigger position. */
  datatype Trigger = Trigger(p1: nat, p2: nat)

  /** The virtual offsets `range(254, n, 256)`: every 256th offset from 254 up to n. */
  function VirtualPositions(n: nat): (vs: seq<nat>)
    ensures |vs| == (n + 1) / 256
    ensures forall k :: 0 <= k < |vs| ==> vs[k] < n && vs[k] % 256 == 254
  {
    seq((n + 1) / 256, k => 254 + 256 * k)
  }

  /** Every offset below n that is 254 modulo 256 is visited, at index offset / 256. */
  lemma VirtualPositionsComplete(n: nat, v: nat)
    requires v < n && v % 256 == 254
    ensures v / 256 < |VirtualPositions(n)| && VirtualPositions(n)[v / 256] == v
  {
    assert v == 256 * (v / 256) + 254;
    assert 256 * (v / 256 + 1) <= n + 1;
  }

  /** The positions are visited in increasing order. */
  lemma VirtualPositionsIncreasing(n: nat, i: nat, j: nat)
    requires i < j < |VirtualPositions(n)|
    ensures VirtualPositions(n)[i] + 256 <= VirtualPositions(n)[j]
  {
  }

  /**
   * Where virtual offset v lies in the file: inside the main header it is
   * the same offset, past it it is that far into the tile-part at `offset`.
   */
  function RealOffset(mainHeaderLen: nat, offset: nat, v: nat): nat {
    if v < mainHeaderLen then v else v - mainHeaderLen + offset
  }

  /**
   * The pair checked at virtual offset v. The second offset is mapped with
   * the first one's branch, so it is always the file byte right after the
   * first, even when v is the last byte of the main header.
   */
  function TriggerPair(mainHeaderLen: nat, offset: nat, v: nat): (t: Trigger)
    ensures t.p1 == RealOffset(mainHeaderLen, offset, v)
    ensures t.p2 == t.p1 + 1
  {
    Trigger(
      if v < mainHeaderLen then v else v - mainHeaderLen + offset,
      if v < mainHeaderLen then v + 1 else v + 1 - mainHeaderLen + offset)
  }

  /** The pairs checked for the tile-part of `length` bytes at `offset`, in scan order. */
  function TriggerPositions(mainHeaderLen: nat, offset: nat, length: nat): (ts: seq<Trigger>)
    ensures |ts| == |VirtualPositions(mainHeaderLen + length)|
  {
    var vs := VirtualPositions(mainHeaderLen + length);
    seq(|vs|, k requires 0 <= k < |vs| => TriggerPair(mainHeaderLen, offset, vs[k]))
  }

  /** The main header followed by the tile-part: the stream the trigger offsets count in. */
  function VirtualStream(file: seq<byte>, mainHeaderLen: nat, offset: nat, length: nat): (s: seq<byte>)
    requires mainHeaderLen <= |file| && offset + length <= |file|
    ensures |s| == mainHeaderLen + length
  {
    file[..mainHeaderLen] + file[offset..offset + length]
  }

  /** The first byte of every pair is the stream's byte at the pair's virtual offset. */
  lemma FirstByteIsStreamByte(file: seq<byte>, mainHeaderLen: nat, offset: nat, length: nat, k: nat)
    requires mainHeaderLen <= |file| && offset + length <= |file|
    requires k < |TriggerPositions(mainHeaderLen, offset, length)|
    ensures var v := VirtualPositions(mainHeaderLen + length)[k];
      var t := TriggerPositions(mainHeaderLen, offset, length)[k];
      && t == TriggerPair(mainHeaderLen, offset, v)
      && t.p1 < |file|
      && file[t.p1] == VirtualStream(file, mainHeaderLen, offset, length)[v]
  {
  }

  /**
   * The second byte of a pair is the stream's byte after the first one,
   * except when the first is the last byte of the main header and the
   * tile-part does not follow the main header directly in the file.
   */
  lemma SecondByteDeparts(mainHeaderLen: nat, offset: nat, v: nat)
    ensures TriggerPair(mainHeaderLen, offset, v).p2 != RealOffset(mainHeaderLen, offset, v + 1)
      <==> v + 1 == mainHeaderLen && offset != mainHeaderLen
  {
  }

  /**
   * Where the two mappings part, the code reads the first byte of the
   * tile-part that follows the main header in the file instead of the first
   * byte of the tile-part being checked; both are the 0xFF that opens an SOT
   * marker in a well-formed codestream, and then the byte values agree.
   */
  lemma SecondByteAgreesAtSeam(file: seq<byte>, mainHeaderLen: nat, offset: nat, v: nat)
    requires TriggerPair(mainHeaderLen, offset, v).p2 < |file| && RealOffset(mainHeaderLen, offset, v + 1) < |file|
    requires mainHeaderLen < |file| && offset < |file| && file[mainHeaderLen] == file[offset]
    ensures file[TriggerPair(mainHeaderLen, offset, v).p2] == file[RealOffset(mainHeaderLen, offset, v + 1)]
  {
    SecondByteDeparts(mainHeaderLen, offset, v);
  }

  /** With the tile-part at or after the end of the main header, the pairs move forward through the file. */
  lemma {:induction false} TriggerPositionsIncreasing(mainHeaderLen: nat, offset: nat, length: nat, i: nat, j: nat)
    requires mainHeaderLen <= offset
    requires i < j < |TriggerPositions(mainHeaderLen, offset, length)|
    ensures TriggerPositions(mainHeaderLen, offset, length)[i].p1
      < TriggerPositions(mainHeaderLen, offset, length)[j].p1
  {
    VirtualPositionsIncreasing(mainHeaderLen + length, i, j);
  }

  /** What checking one tile-part ends with. */
  datatype TileVerdict =
    | Clean                   // no pair is 0xFF 0xFF
    | Forbidden(offset: nat)  // the pair at this file offset is 0xFF 0xFF
    | Unreadable(offset: nat) // a byte to be read lies past the end of the file

  /** A pair the check passes: the first byte is there, and if it is 0xFF the second is there and is not. */
  predicate Passes(file: seq<byte>, t: Trigger) {
    t.p1 < |file| && (file[t.p1] == 0xFF ==> t.p2 < |file| && file[t.p2] != 0xFF)
  }

  /** How the check stops at a pair it does not pass: it names the byte it could not read, or the pair. */
  function Stopped(file: seq<byte>, t: Trigger): TileVerdict {
    if t.p1 >= |file| then Unreadable(t.p1)
    else if t.p2 >= |file| then Unreadable(t.p2)
    else Forbidden(t.p1)
  }

  /**
   * The check over a run of pairs, in order: the second byte is read only
   * when the first is 0xFF, and the first failing pair ends the check.
   */
  function ScanPairs(file: seq<byte>, ts: seq<Trigger>): TileVerdict {
    if ts == [] then Clean
    else
      match ReadByte(file, ts[0].p1)
      case None => Unreadable(ts[0].p1)
      case Some(b1) =>
        if b1 != 0xFF then ScanPairs(file, ts[1..])
        else
          match ReadByte(file, ts[0].p2)
          case None => Unreadable(ts[0].p2)
          case Some(b2) => if b2 == 0xFF then Forbidden(ts[0].p1) else ScanPairs(file, ts[1..])
  }

  /** The check is clean exactly when every pair passes. */
  lemma {:induction false} ScanPairsClean(file: seq<byte>, ts: seq<Trigger>)
    ensures ScanPairs(file, ts) == Clean <==> forall k :: 0 <= k < |ts| ==> Passes(file, ts[k])
  {
    if ts != [] {
      ScanPairsClean(file, ts[1..]);
      assert forall k :: 1 <= k < |ts| ==> ts[k] == ts[1..][k - 1];
    }
  }

  /** The check reports the first pair that does not pass, in the way Stopped says. */
  lemma {:induction false} ScanPairsFindsFirst(file: seq<byte>, ts: seq<Trigger>, k: nat)
    requires k < |ts|
    requires forall j :: 0 <= j < k ==> Passes(file, ts[j])
    requires !Passes(file, ts[k])
    ensures ScanPairs(file, ts) == Stopped(file, ts[k])
  {
    if k > 0 {
      assert Passes(file, ts[0]);
      assert forall j :: 0 <= j < k - 1 ==> ts[1..][j] == ts[j + 1];
      ScanPairsFindsFirst(file, ts[1..], k - 1);
    }
  }

  /**
   * When every byte of every pair lies in the file, the check fails exactly
   * when some pair reads 0xFF 0xFF, and then it reports a forbidden pattern.
   */
  lemma {:induction false} ScanPairsInFile(file: seq<byte>, ts: seq<Trigger>)
    requires forall k :: 0 <= k < |ts| ==> ts[k].p1 < |file| && ts[k].p2 < |file|
    ensures ScanPairs(file, ts) != Clean
      <==> exists k :: 0 <= k < |ts| && file[ts[k].p1] == 0xFF && file[ts[k].p2] == 0xFF
    ensures ScanPairs(file, ts).Forbidden? || ScanPairs(file, ts) == Clean
  {
    ScanPairsClean(file, ts);
    if ts != [] {
      ScanPairsInFile(file, ts[1..]);
    }
  }

  /**
   * check_tile_part: walks the trigger positions of the tile-part at
   * `offset` and stops at the first pair that cannot be read or reads
   * 0xFF 0xFF.
   */
  method CheckTilePart(file: seq<byte>, mainHeaderLen: nat, offset: nat, length: nat) returns (v: TileVerdict)
    ensures v == ScanPairs(file, TriggerPositions(mainHeaderLen, offset, length))
  {
    var ts := TriggerPositions(mainHeaderLen, offset, length);
    var end := mainHeaderLen + length;
    var p := 254;
    var k := 0;
    while p < end
      invariant p == 254 + 256 * k
      invariant k <= |ts|
      invariant k < |ts| <==> p < end
      invariant ScanPairs(file, ts[k..]) == ScanPairs(file, ts)
      decreases end - p
    {
      var t := TriggerPair(mainHeaderLen, offset, p);
      assert ts[k] == t;
      assert ts[k..][1..] == ts[k + 1..];
      var b1 := ReadByte(file, t.p1);
      if b1.None? {
        return Unreadable(t.p1);
      }
      if b1.value == 0xFF {
        var b2 := ReadByte(file, t.p2);
        if b2.None? {
          return Unreadable(t.p2);
        }
        if b2.value == 0xFF {
          return Forbidden(t.p1);
        }
      }
      p := p + 256;
      k := k + 1;
    }
    assert ts[k..] == [];
    return Clean;
  }
}
