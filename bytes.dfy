/**
 * The codestream file as an in-memory byte sequence: bounds-checked reads
 * and the big-endian unsigned integers that marker codes, segment lengths
 * and TLM records are made of.
 */
module Bytes {
  import opened Results

  /** One octet of the file. */
  newtype byte = x: int | 0 <= x < 256

  /** 256 to the power n: the number of values an n-byte field can hold. */
  function Pow256(n: nat): (r: nat)
    ensures r >= 1
  {
    if n == 0 then 1 else 256 * Pow256(n - 1)
  }

  /** Value of a big-endian unsigned integer field (what `struct` decodes for `>B`, `>H`, `>L`). */
  function BigEndian(s: seq<byte>): nat {
    if |s| == 0 then 0 else BigEndian(s[..|s| - 1]) * 256 + s[|s| - 1] as nat
  }

  /** The n-byte big-endian encoding of v: the inverse of BigEndian. */
  function ToBigEndian(v: nat, n: nat): (s: seq<byte>)
    requires v < Pow256(n)
    ensures |s| == n
  {
    if n == 0 then []
    else ToBigEndian(v / 256, n - 1) + [(v % 256) as byte]
  }

  lemma {:induction false} BigEndianOfToBigEndian(v: nat, n: nat)
    requires v < Pow256(n)
    ensures BigEndian(ToBigEndian(v, n)) == v
  {
    if n > 0 {
      var s := ToBigEndian(v, n);
      assert s[..n - 1] == ToBigEndian(v / 256, n - 1);
      BigEndianOfToBigEndian(v / 256, n - 1);
    }
  }

  /** An n-byte field holds less than 256^n. */
  lemma {:induction false} BigEndianBound(s: seq<byte>)
    ensures BigEndian(s) < Pow256(|s|)
  {
    if |s| > 0 {
      BigEndianBound(s[..|s| - 1]);
    }
  }

  /** Encoding the value of an n-byte field again gives the same bytes. */
  lemma {:induction false} ToBigEndianOfBigEndian(s: seq<byte>)
    ensures BigEndian(s) < Pow256(|s|)
    ensures ToBigEndian(BigEndian(s), |s|) == s
  {
    BigEndianBound(s);
    if |s| > 0 {
      var init := s[..|s| - 1];
      var last := s[|s| - 1] as nat;
      var v := BigEndian(s);
      assert v == BigEndian(init) * 256 + last;
      assert v / 256 == BigEndian(init) && v % 256 == last;
      ToBigEndianOfBigEndian(init);
      assert ToBigEndian(v, |s|) == init + [last as byte];
      assert init + [s[|s| - 1]] == s;
    }
  }

  /** The byte at offset p, or None when p is at or past the end of the file (a short `read(1)`). */
  function ReadByte(file: seq<byte>, p: nat): (r: Option<byte>)
    ensures r.Some? <==> p < |file|
    ensures r.Some? ==> r.value == file[p]
  {
    if p < |file| then Some(file[p]) else None
  }

  /** The two bytes at offset p as a big-endian 16-bit value, or None on a short `read(2)`. */
  function ReadU16(file: seq<byte>, p: nat): (r: Option<nat>)
    ensures r.Some? <==> p + 2 <= |file|
    ensures r.Some? ==> r.value < 0x10000
  {
    if p + 2 <= |file| then Some(file[p] as nat * 256 + file[p + 1] as nat) else None
  }

  /** ReadU16 reads the big-endian value of the two bytes at its offset. */
  lemma ReadU16IsBigEndian(file: seq<byte>, p: nat)
    requires p + 2 <= |file|
    ensures ReadU16(file, p) == Some(BigEndian(file[p..p + 2]))
  {
    var s := file[p..p + 2];
    assert s[..1] == [file[p]] && s[1] == file[p + 1];
    assert BigEndian(s[..1]) == file[p] as nat by {
      assert s[..1][..0] == [];
    }
  }

  /** The two bytes of a 16-bit big-endian field holding v. */
  function U16Bytes(v: nat): (s: seq<byte>)
    requires v < 0x10000
    ensures |s| == 2
  {
    [(v / 256) as byte, (v % 256) as byte]
  }

  /** A 16-bit field read back at the offset it was written to gives its value. */
  lemma ReadU16OfU16Bytes(file: seq<byte>, p: nat, v: nat)
    requires v < 0x10000
    requires p + 2 <= |file| && file[p..p + 2] == U16Bytes(v)
    ensures ReadU16(file, p) == Some(v)
  {
    assert file[p] == U16Bytes(v)[0] && file[p + 1] == U16Bytes(v)[1];
  }
}
