/**
 * Decoding of a TLM (tile-part lengths) marker segment payload, section A.7.1
 * of ITU-T T.800: byte 0 is Ztlm, byte 1 is Stlm, and the rest is a packed
 * run of big-endian records (optional tile index Ttlm, tile-part length Ptlm).
 */
module Tlm {
  import opened Results
  import opened Bytes

  /** Byte widths of the two fields of every record, as Stlm selects them. */
  datatype Layout = Layout(indexWidth: nat, lengthWidth: nat)

  predicate ValidLayout(l: Layout) {
    l.indexWidth <= 2 && (l.lengthWidth == 2 || l.lengthWidth == 4)
  }

  function RecordWidth(l: Layout): nat {
    l.indexWidth + l.lengthWidth
  }

  /** The ST field of Stlm: bits 4-5 (the mask 0x30 shifted right by 4). */
  function StField(stlm: byte): (st: nat)
    ensures st <= 3
  {
    (stlm as nat / 16) % 4
  }

  /** The SP field of Stlm: bit 6 (the mask 0x40 shifted right by 6). */
  function SpField(stlm: byte): (sp: nat)
    ensures sp <= 1
  {
    (stlm as nat / 64) % 2
  }

  /** A byte keeps its value as a bit-vector. */
  lemma ByteAsBits(stlm: byte)
    ensures (stlm as int as bv8) as int == stlm as int
  {
  }

  /** Bits 4-5 of a bit-vector byte, by mask and shift and by division. */
  lemma StBits(b: bv8)
    ensures ((b & 0x30) >> 4) as int == (b as int / 16) % 4
  {
  }

  /** Bit 6 of a bit-vector byte, by mask and shift and by division. */
  lemma SpBits(b: bv8)
    ensures ((b & 0x40) >> 6) as int == (b as int / 64) % 2
  {
  }

  /** Division and remainder take the same bits as the mask-and-shift on the byte. */
  lemma StSpAreMaskShift(stlm: byte)
    ensures StField(stlm) == (((stlm as int as bv8) & 0x30) >> 4) as int
    ensures SpField(stlm) == (((stlm as int as bv8) & 0x40) >> 6) as int
  {
    ByteAsBits(stlm);
    StBits(stlm as int as bv8);
    SpBits(stlm as int as bv8);
  }

  /**
   * The record layout Stlm selects: ST = 1 or 2 gives a 1- or 2-byte index
   * field, ST = 0 and the reserved ST = 3 give none; SP = 0 gives a 2-byte
   * length field and SP = 1 a 4-byte one.
   */
  function LayoutOf(stlm: byte): (l: Layout)
    ensures ValidLayout(l)
    ensures l.indexWidth == (if StField(stlm) == 3 then 0 else StField(stlm))
    ensures l.lengthWidth == 2 + 2 * SpField(stlm)
  {
    var st := StField(stlm);
    var indexWidth := if st == 1 then 1 else if st == 2 then 2 else 0;
    var lengthWidth := if SpField(stlm) == 0 then 2 else 4;
    Layout(indexWidth, lengthWidth)
  }

  /** The Stlm byte that selects layout l, its bits outside 4-6 taken from `other`. */
  function StlmOf(l: Layout, other: byte): byte
    requires ValidLayout(l)
  {
    var sp := if l.lengthWidth == 2 then 0 else 1;
    (other as nat / 128 * 128 + sp * 64 + l.indexWidth * 16 + other as nat % 16) as byte
  }

  /** Decoding an encoded Stlm gives back its layout, whatever the bits Stlm does not use. */
  lemma LayoutOfStlmOf(l: Layout, other: byte)
    requires ValidLayout(l)
    ensures LayoutOf(StlmOf(l, other)) == l
  {
    var b := StlmOf(l, other) as nat;
    var sp := if l.lengthWidth == 2 then 0 else 1;
    assert b == other as nat / 128 * 128 + sp * 64 + l.indexWidth * 16 + other as nat % 16;
    assert b / 16 == other as nat / 128 * 8 + sp * 4 + l.indexWidth;
    assert b / 64 == other as nat / 128 * 2 + sp;
  }

  /**
   * The length fields of the first n records of a record area, in payload
   * order, index fields skipped; fewer when the area runs out of whole records.
   */
  function Records(area: seq<byte>, l: Layout, n: nat): (r: seq<nat>)
    requires ValidLayout(l)
    ensures |r| <= n
    decreases n
  {
    var w := RecordWidth(l);
    if n == 0 || |area| < w then []
    else [BigEndian(area[l.indexWidth..w])] + Records(area[w..], l, n - 1)
  }

  /** Offset of record k in a record area: k record widths. */
  function RecordStart(l: Layout, k: nat): nat {
    if k == 0 then 0 else RecordStart(l, k - 1) + RecordWidth(l)
  }

  /** Record k starts k times the record width into the area. */
  lemma {:induction false} RecordStartIsProduct(l: Layout, k: nat)
    ensures RecordStart(l, k) == k * RecordWidth(l)
  {
    if k > 0 {
      var w := RecordWidth(l);
      RecordStartIsProduct(l, k - 1);
      assert (k - 1) * w + w == k * w;
    }
  }

  /** Record k starts k record widths into the area, and its length field follows its index field. */
  lemma {:induction false} RecordsAt(area: seq<byte>, l: Layout, n: nat, k: nat)
    requires ValidLayout(l)
    requires k < |Records(area, l, n)|
    ensures RecordStart(l, k) + RecordWidth(l) <= |area|
    ensures Records(area, l, n)[k] == BigEndian(area[RecordStart(l, k)..][l.indexWidth..RecordWidth(l)])
  {
    var w := RecordWidth(l);
    if k > 0 {
      var tail := area[w..];
      assert Records(area, l, n)[k] == Records(tail, l, n - 1)[k - 1];
      RecordsAt(tail, l, n - 1, k - 1);
      assert tail[RecordStart(l, k - 1)..] == area[RecordStart(l, k)..];
    }
  }

  /** n records are read, or as many whole records as the area holds if that is fewer. */
  lemma {:induction false} RecordsCount(area: seq<byte>, l: Layout, n: nat)
    requires ValidLayout(l)
    ensures |Records(area, l, n)| == if |area| / RecordWidth(l) < n then |area| / RecordWidth(l) else n
    decreases n
  {
    var w := RecordWidth(l);
    if n > 0 && |area| >= w {
      RecordsCount(area[w..], l, n - 1);
      assert |area[w..]| / w == |area| / w - 1 by {
        DivSubtract(|area|, w);
      }
    }
  }

  /** Removing one width removes one from the quotient. */
  lemma DivSubtract(x: nat, w: nat)
    requires 2 <= w <= 6 && x >= w
    ensures (x - w) / w == x / w - 1
  {
    if w == 2 {
    } else if w == 3 {
    } else if w == 4 {
    } else if w == 5 {
    } else {
    }
  }

  datatype TlmError =
    | PayloadTooShort  // no Stlm byte to read
    | RaggedRecords    // the record area is not a whole number of records

  /**
   * The tile-part lengths one TLM payload contributes: the length fields of
   * at most its first three records. The record area must hold a whole
   * number of records even though only three are ever read.
   */
  function TlmLengths(payload: seq<byte>): Result<seq<nat>, TlmError> {
    if |payload| < 2 then Err(PayloadTooShort)
    else
      var l := LayoutOf(payload[1]);
      var area := payload[2..];
      if |area| % RecordWidth(l) != 0 then Err(RaggedRecords)
      else Ok(Records(area, l, 3))
  }

  /**
   * The payload is refused exactly when it has no Stlm byte or a ragged record
   * area; otherwise it gives the length fields of its first three records.
   */
  lemma TlmLengthsCases(payload: seq<byte>)
    ensures TlmLengths(payload) == Err(PayloadTooShort) <==> |payload| < 2
    ensures TlmLengths(payload) == Err(RaggedRecords)
      <==> |payload| >= 2 && (|payload| - 2) % RecordWidth(LayoutOf(payload[1])) != 0
    ensures TlmLengths(payload).Ok? ==>
      var l := LayoutOf(payload[1]);
      && |TlmLengths(payload).value| == (if (|payload| - 2) / RecordWidth(l) < 3 then (|payload| - 2) / RecordWidth(l) else 3)
      && forall k :: 0 <= k < |TlmLengths(payload).value| ==>
           TlmLengths(payload).value[k] == BigEndian(payload[2..][RecordStart(l, k)..][l.indexWidth..RecordWidth(l)])
  {
    if |payload| >= 2 {
      var l := LayoutOf(payload[1]);
      var area := payload[2..];
      if |area| % RecordWidth(l) == 0 {
        forall k | 0 <= k < |TlmLengths(payload).value|
          ensures TlmLengths(payload).value[k] == BigEndian(area[RecordStart(l, k)..][l.indexWidth..RecordWidth(l)])
        {
          RecordsAt(area, l, 3, k);
        }
        RecordsCount(area, l, 3);
      }
    }
  }

  /** Reads the Stlm byte, chooses the record format and collects the first three length fields. */
  method DecodeTlm(payload: seq<byte>) returns (r: Result<seq<nat>, TlmError>)
    ensures r == TlmLengths(payload)
  {
    if |payload| < 2 {
      return Err(PayloadTooShort);
    }
    var l := LayoutOf(payload[1]);
    var width := RecordWidth(l);
    var area := payload[2..];
    if |area| % width != 0 {
      return Err(RaggedRecords);
    }
    var lengths: seq<nat> := [];
    var rest := area;
    while |lengths| < 3 && |rest| >= width
      invariant |lengths| <= 3
      invariant lengths + Records(rest, l, 3 - |lengths|) == Records(area, l, 3)
      decreases |rest|
    {
      lengths := lengths + [BigEndian(rest[l.indexWidth..width])];
      rest := rest[width..];
    }
    assert Records(rest, l, 3 - |lengths|) == [];
    assert lengths + [] == lengths;
    return Ok(lengths);
  }

  /** One TLM record: tile index Ttlm and tile-part length Ptlm. */
  datatype Record = Record(index: nat, length: nat)

  predicate Fits(l: Layout, rec: Record) {
    rec.index < Pow256(l.indexWidth) && rec.length < Pow256(l.lengthWidth)
  }

  /** The packed big-endian bytes of a run of records (the partner of Records). */
  function EncodeRecords(l: Layout, recs: seq<Record>): (s: seq<byte>)
    requires ValidLayout(l)
    requires forall i :: 0 <= i < |recs| ==> Fits(l, recs[i])
    ensures |s| == RecordStart(l, |recs|)
  {
    if recs == [] then []
    else
      assert Fits(l, recs[0]);
      ToBigEndian(recs[0].index, l.indexWidth) + ToBigEndian(recs[0].length, l.lengthWidth)
        + EncodeRecords(l, recs[1..])
  }

  /** Whole records leave no remainder: k record widths are a multiple of the width. */
  lemma {:induction false} RecordStartIsWhole(l: Layout, k: nat)
    requires ValidLayout(l)
    ensures RecordStart(l, k) % RecordWidth(l) == 0
  {
    if k > 0 {
      RecordStartIsWhole(l, k - 1);
      AddWidthKeepsRemainder(RecordStart(l, k - 1), RecordWidth(l));
    }
  }

  lemma AddWidthKeepsRemainder(x: nat, w: nat)
    requires 2 <= w <= 6
    ensures (x + w) % w == x % w
  {
    if w == 2 {
    } else if w == 3 {
    } else if w == 4 {
    } else if w == 5 {
    } else {
    }
  }

  /** The tile-part lengths of a run of records, in order. */
  function Lengths(recs: seq<Record>): (r: seq<nat>)
    ensures |r| == |recs|
    ensures forall i :: 0 <= i < |recs| ==> r[i] == recs[i].length
  {
    if recs == [] then [] else [recs[0].length] + Lengths(recs[1..])
  }

  /** A whole TLM payload: Ztlm, the Stlm selecting layout l, then the records. */
  function EncodeTlm(ztlm: byte, l: Layout, other: byte, recs: seq<Record>): seq<byte>
    requires ValidLayout(l)
    requires forall i :: 0 <= i < |recs| ==> Fits(l, recs[i])
  {
    [ztlm, StlmOf(l, other)] + EncodeRecords(l, recs)
  }

  /** An encoded run starts with its first record: the length field in its place, the rest after it. */
  lemma EncodeRecordsFirst(l: Layout, recs: seq<Record>)
    requires ValidLayout(l)
    requires forall i :: 0 <= i < |recs| ==> Fits(l, recs[i])
    requires recs != []
    ensures var s := EncodeRecords(l, recs);
      && RecordWidth(l) <= |s|
      && s[l.indexWidth..RecordWidth(l)] == ToBigEndian(recs[0].length, l.lengthWidth)
      && s[RecordWidth(l)..] == EncodeRecords(l, recs[1..])
  {
    assert Fits(l, recs[0]);
    var index := ToBigEndian(recs[0].index, l.indexWidth);
    var len := ToBigEndian(recs[0].length, l.lengthWidth);
    var s := EncodeRecords(l, recs);
    assert s == index + len + EncodeRecords(l, recs[1..]);
  }

  lemma LengthsPrefix(recs: seq<Record>, m: nat)
    requires 0 < m <= |recs|
    ensures Lengths(recs)[..m] == [recs[0].length] + Lengths(recs[1..])[..m - 1]
  {
  }

  /** Decoding n records of an encoded run gives the first n lengths back, index fields ignored. */
  lemma {:induction false} RecordsOfEncodeRecords(l: Layout, recs: seq<Record>, n: nat)
    requires ValidLayout(l)
    requires forall i :: 0 <= i < |recs| ==> Fits(l, recs[i])
    ensures Records(EncodeRecords(l, recs), l, n) == Lengths(recs)[..if n < |recs| then n else |recs|]
  {
    if n > 0 && recs != [] {
      var s := EncodeRecords(l, recs);
      var w := RecordWidth(l);
      EncodeRecordsFirst(l, recs);
      assert Records(s, l, n) == [BigEndian(s[l.indexWidth..w])] + Records(s[w..], l, n - 1);
      assert Fits(l, recs[0]);
      BigEndianOfToBigEndian(recs[0].length, l.lengthWidth);
      RecordsOfEncodeRecords(l, recs[1..], n - 1);
      LengthsPrefix(recs, if n < |recs| then n else |recs|);
    }
  }

  /** A TLM payload built from records decodes to the lengths of at most its first three records. */
  lemma TlmLengthsOfEncodeTlm(ztlm: byte, l: Layout, other: byte, recs: seq<Record>)
    requires ValidLayout(l)
    requires forall i :: 0 <= i < |recs| ==> Fits(l, recs[i])
    ensures TlmLengths(EncodeTlm(ztlm, l, other, recs))
      == Ok(Lengths(recs)[..if |recs| < 3 then |recs| else 3])
  {
    var payload := EncodeTlm(ztlm, l, other, recs);
    LayoutOfStlmOf(l, other);
    assert payload[1] == StlmOf(l, other);
    assert payload[2..] == EncodeRecords(l, recs);
    RecordStartIsWhole(l, |recs|);
    RecordsOfEncodeRecords(l, recs, 3);
  }
}
