# JPEG 2000 codestream validator (forbidden 0xFFFF pattern), modelled in Dafny

`validate.py` checks a JPEG 2000 codestream (ITU-T T.800 | ISO/IEC 15444-1)
made of a main header followed by exactly three tile-parts. It runs in three
steps:

1. It scans the main header's marker segments from offset 0.
   - It skips each length-prefixed segment.
   - It decodes the one TLM (tile-part lengths) segment into at most three
     lengths.
   - It stops at the first SOT marker, whose offset is the main-header length.
2. It demands exactly three lengths and a main header longer than 0 bytes.
3. For each tile-part it forms the virtual stream "main header followed by
   this tile-part". At every virtual offset 254, 510, 766, … it fails if the
   byte there and the byte after it are both 0xFF.

The model keeps this structure, one module per file:

| file | module | what it holds |
|---|---|---|
| `results.dfy` | `Results` | `Option` and `Result` |
| `bytes.dfy` | `Bytes` | the file as `seq<byte>`, bounds-checked reads, big-endian fields |
| `markers.dfy` | `Markers` | the `Marker` table, `Code` and `FromCode` |
| `tlm.dfy` | `Tlm` | Stlm decoding, record decoding (`TlmLengths`, the `DecodeTlm` loop), and an encoder used as its partner |
| `failures.dfy` | `Failures` | every way validation fails |
| `header_scan.dfy` | `HeaderScan` | the scan loop (`ScanMainHeader`) and its specification (`ScanStep`/`ScanFrom`) |
| `triggers.dfy` | `Triggers` | `trigger_positions` (`TriggerPositions`), the check of one tile-part (`CheckTilePart`), its specification (`ScanPairs`) |
| `validator.dfy` | `Validator` | `validate` (`Validate`) and its specification (`Validation`) |

The pure parts of the source are functions: the marker table,
`trigger_positions` and the Stlm decoding. Its loops are methods with loop
invariants:
- the `while True` scan of `validate` is `HeaderScan.ScanMainHeader`;
- the record loop is `Tlm.DecodeTlm`;
- the trigger loop of `check_tile_part` is `Triggers.CheckTilePart`.

Each method is proved equal to a recursive specification function. The
properties are lemmas about those functions.

How the model treats the reads:
- The file is an in-memory byte sequence, and the read position is a cursor.
- A short `read(2)` of a marker or a length field ends the scan loop without
  an error, as in the code.
- The relative `seek(L - 2, 1)` puts the cursor at `marker offset + 2 + L`.
  That is always forward, so lengths 0 and 1 are modelled as the code
  behaves: they re-read inside the segment.
- The TLM payload read `read(L - 2)` behaves as a buffered Python file does:
  - L = 0 asks for −2 bytes, which the file object refuses (`BadTlmLength`);
  - L = 1 asks for −1 bytes, which reads to the end of the file;
  - otherwise the read stops early at the end of the file.

Some behaviours of the code differ from what a reader might expect. The
model follows the code in each case:
- **The second byte of a trigger pair.** A natural reading maps virtual
  offsets v and v + 1 to file offsets each on its own. The code maps v + 1
  with the branch chosen for v, so the second byte is always the file byte
  right after the first (validate.py:37-38).
  - `Triggers.SecondByteDeparts` states exactly where the two mappings
    differ: v is the last main-header byte and the tile-part does not follow
    the main header directly.
  - `Triggers.SecondByteAgreesAtSeam` shows that the byte values still agree
    when both tile-parts start with the same byte. In a well-formed
    codestream that byte is the 0xFF of an SOT.
- **Running out of bytes.** A file that ends inside a marker or length field
  is not reported as such: the code ends the scan silently
  (validate.py:51-53, 65-67). Validation then fails only through the length-count
  or header-length check.
- **A second TLM segment.** Failing on any second TLM segment would be the
  obvious rule. The code fails only if lengths were already collected
  (validate.py:77), so a first TLM segment with no records lets a second
  one through.
- **Tile-part lengths.** The code does not check that the tile-part lengths
  are positive.
- **The number of lengths.** The code fails on any count other than three
  (validate.py:102). `HeaderScan.ScanKeepsFirstLengths` shows the scan never
  collects more than three, so this is the same as failing on fewer than
  three.

## Model

| member | source | states |
|---|---|---|
| Markers.Code | validate.py:8-20 | every marker code begins with the byte 0xFF |
| Markers.FromCode | validate.py:8-26 | a 16-bit code is accepted exactly when it is one of the 12 in the table; the marker found has that code; it is length-less exactly for the codes of SOD, EPH, EOC and SOC |
| Markers.FromCodeOfCode | validate.py:8-26 | looking up a marker's own code gives the marker back; its code is in the table, and it is length-less exactly when its code is one of the four length-less codes |
| Markers.CodeInjective | validate.py:8-20 | no two markers share a code |
| Bytes.ReadByte | validate.py:28-33 | the read succeeds exactly when the offset is inside the file, and then gives the byte at that offset |
| Bytes.ReadU16 | validate.py:52-56 | a two-byte read succeeds exactly when both bytes are in the file, and gives a value below 0x10000 |
| Bytes.ReadU16IsBigEndian | validate.py:56 | the two-byte read is the big-endian value of the two bytes (first byte times 256 plus second) |
| Bytes.ReadU16OfU16Bytes | validate.py:65-68 | reading back the big-endian encoding of a 16-bit value gives the value |
| Bytes.BigEndianBound | validate.py:99 | an n-byte big-endian field holds less than 256^n |
| Bytes.BigEndianOfToBigEndian | validate.py:99 | decoding the n-byte big-endian encoding of a value gives the value |
| Bytes.ToBigEndianOfBigEndian | validate.py:99 | encoding the value of an n-byte field again gives the same bytes |
| Tlm.StField | validate.py:84 | the ST field of Stlm is at most 3 |
| Tlm.SpField | validate.py:85 | the SP field of Stlm is at most 1 |
| Tlm.StSpAreMaskShift | validate.py:84-85 | the ST and SP fields taken by division and remainder are the mask-and-shift of the Stlm byte: `(b & 0x30) >> 4` and `(b & 0x40) >> 6` |
| Tlm.LayoutOf | validate.py:84-97 | ST = 1 or 2 gives a 1- or 2-byte index field, ST = 0 and the reserved ST = 3 give none; SP = 0 gives a 2-byte length field and SP = 1 a 4-byte one |
| Tlm.LayoutOfStlmOf | validate.py:84-97 | decoding an Stlm byte built for a layout gives that layout back, whatever the bits ST and SP do not use |
| Tlm.RecordStartIsProduct | validate.py:99 | record k of the packed area starts k record widths in |
| Tlm.RecordsAt | validate.py:99-100 | record k lies inside the area, and the length decoded for it is the big-endian value of its length field, after its index field |
| Tlm.RecordsCount | validate.py:99-100 | n records are decoded, or every whole record of the area if there are fewer |
| Tlm.TlmLengthsCases | validate.py:80-100 | a payload without an Stlm byte fails, a record area that is not a whole number of records fails, and otherwise the lengths are those of the first min(3, #records) records in payload order |
| Tlm.DecodeTlm | validate.py:84-100 | the decoding loop returns exactly what TlmLengths specifies |
| Tlm.EncodeRecords | validate.py:99 | a run of k encoded records is k record widths long |
| Tlm.RecordStartIsWhole | validate.py:99 | whole records leave no remainder, so an encoded run is never ragged |
| Tlm.Lengths | validate.py:100 | the lengths of a run of records, one per record, in order |
| Tlm.EncodeRecordsFirst | validate.py:99-100 | an encoded run starts with its first record, length field after index field |
| Tlm.RecordsOfEncodeRecords | validate.py:99-100 | decoding n records of an encoded run gives back the first n lengths, index fields ignored |
| Tlm.TlmLengthsOfEncodeTlm | validate.py:80-100 | a TLM payload built from records decodes to the lengths of at most its first three records |
| HeaderScan.PayloadEnd | validate.py:80 | the payload read stops L − 2 bytes on or at the end of the file, and a length of 1 reads to the end |
| HeaderScan.ScanStep | validate.py:51-100 | a turn of the loop that goes on has read a marker code and moves the cursor forward by at least 2 bytes |
| HeaderScan.ScanFromNext | validate.py:51 | a turn that goes on hands the scan over to the new cursor and lengths |
| HeaderScan.ScanMainHeader | validate.py:48-100 | the scan loop returns exactly what ScanFrom specifies from offset 0 with no lengths |
| HeaderScan.ScanStepCases | validate.py:52-78 | one turn of the scan: a short marker read ends the scan with no SOT; an unknown code fails; SOT ends it at its offset; a length-less marker moves on 2 bytes; a short length read ends the scan; another length-prefixed non-TLM marker moves on to 4 + (L − 2) bytes past its offset; a TLM after collected lengths fails |
| HeaderScan.ScanTlmCases | validate.py:77-100 | a first TLM segment: length 0 fails, a payload without Stlm or with a ragged record area fails, otherwise the scan goes on after the payload with the decoded lengths |
| HeaderScan.ScanKeepsFirstLengths | validate.py:77-78 | the scan collects at most three lengths, and once it holds lengths it never replaces them |
| HeaderScan.ScanFailsInHeader | validate.py:51-100 | the scan fails only with a marker, duplicate-TLM or TLM-decoding failure |
| HeaderScan.ScanEndsAtSot | validate.py:58-60 | a non-zero main-header length the scan reports is the offset of an SOT code at or after where it started |
| HeaderScan.SegmentBytes | validate.py:62-73 | an encoded segment is its 2-byte code, plus for a length-prefixed marker a 2-byte length field and the payload |
| HeaderScan.ScanSkipsSegment | validate.py:62-73 | the scan steps over one encoded segment that is neither SOT nor TLM, lengths untouched |
| HeaderScan.ScanSkipsSegments | validate.py:62-73 | the scan steps over a run of such segments, lengths untouched |
| HeaderScan.ScanReadsTlm | validate.py:77-100 | an encoded TLM segment met with no lengths held is decoded and the scan goes on right after it with the decoded lengths |
| HeaderScan.ScanStopsAtSot | validate.py:58-60 | an SOT at the cursor ends the scan with the cursor as main-header length |
| HeaderScan.ScanReachesSot | validate.py:58-73 | skippable segments followed by an SOT: the scan reports the SOT's offset |
| HeaderScan.ScanFromTlm | validate.py:58-100 | a TLM segment, skippable segments, then an SOT: the scan reports the SOT's offset and the TLM's lengths |
| HeaderScan.ScanOfHeaderLayout | validate.py:51-100 | a file laid out as segments, one TLM segment, segments, then an SOT scans to the SOT's offset and the TLM's lengths |
| HeaderScan.ScanOfWellFormedHeader | validate.py:51-100 | an encoded main header with one TLM segment, followed by an SOT, scans to the header's length and the TLM payload's lengths |
| Triggers.VirtualPositions | validate.py:36 | (n + 1) / 256 positions, each below n and 254 modulo 256 |
| Triggers.VirtualPositionsComplete | validate.py:36 | every offset below n that is 254 modulo 256 is visited, as position offset / 256 |
| Triggers.VirtualPositionsIncreasing | validate.py:36 | later positions are at least 256 further on |
| Triggers.TriggerPair | validate.py:37-38 | the first offset of a pair is the virtual offset mapped into the file, and the second is always the byte after it |
| Triggers.TriggerPositions | validate.py:35-38 | one pair per virtual position |
| Triggers.VirtualStream | validate.py:35-38 | the virtual stream is as long as the main header plus the tile-part |
| Triggers.FirstByteIsStreamByte | validate.py:35-38 | pair k is the pair of virtual position k, and its first byte is in the file and is the virtual stream's byte at that position |
| Triggers.SecondByteDeparts | validate.py:37-38 | the second offset differs from the mapped v + 1 exactly when v is the last main-header byte and the tile-part is not the one right after the main header |
| Triggers.SecondByteAgreesAtSeam | validate.py:37-38 | where they differ, the byte values still agree when the two tile-parts start with the same byte |
| Triggers.TriggerPositionsIncreasing | validate.py:35-38 | with the tile-part at or after the end of the main header, the pairs move strictly forward through the file |
| Triggers.ScanPairsClean | validate.py:40-43 | the check is clean exactly when every pair's first byte is readable and, if it is 0xFF, the second is readable and not 0xFF |
| Triggers.ScanPairsFindsFirst | validate.py:28-43 | the check reports the first pair that fails: an unreadable first byte, an unreadable second byte after a 0xFF, or 0xFF 0xFF at the pair's first offset |
| Triggers.ScanPairsInFile | validate.py:40-43 | with every byte inside the file, the check fails exactly when some pair reads 0xFF 0xFF, and then it reports a forbidden pattern |
| Triggers.CheckTilePart | validate.py:40-43 | the check_tile_part loop returns exactly what ScanPairs specifies for the trigger pairs of the tile-part |
| Validator.TileOffsets | validate.py:115-123 | the first tile-part starts at the end of the main header and each of the next starts where the one before it ends |
| Validator.CheckTileParts | validate.py:113-123 | the three tile-part checks return what TilesCheck specifies: the first failure, in tile-part order |
| Validator.Validate | validate.py:45-123 | validate returns exactly what Validation specifies |
| Validator.ValidationOk | validate.py:102-123 | a file passes exactly when the scan ends with three lengths at a main-header length above 0 and all three tile-parts check clean; it then reports those values, and an SOT code sits at the main-header length |
| Validator.ValidationChecksScanResult | validate.py:102-108 | after a successful scan, a count of lengths other than three fails with that count, before the main-header length is looked at; with three lengths a main-header length of 0 fails |
| Validator.ValidationFailsAtFirstTile | validate.py:113-123 | a forbidden pattern or read error comes from the first tile-part whose check fails, after the ones before it checked clean |
| Validator.ValidationOfWellFormed | validate.py:45-123 | an encoded main header with one TLM segment of three records, an SOT, and tile-parts that check clean, passes with the header's length and the three lengths |

## Left out

- Opening the file, `sys.argv` and the `__main__` block (validate.py:46, 125-126): the file is a byte sequence given as a parameter.
- The progress `print` lines (validate.py:75, 105, 109): output only. `Validator.Summary` holds the two values printed on success.
- Python exception types: `raise "…"` (a `TypeError`), the `ValueError` of an unknown `Marker(...)`, the `IndexError` of `payload[1]` and the `struct.error` of a ragged record area all become variants of `Failures.Failure`.
- The exception messages: a failure keeps the offset or count it concerns, not the text.
- Bytes are a `byte` newtype over the integers 0-255 rather than bit-vectors. The Stlm bit fields are taken by division and remainder (`/ 16 % 4`, `/ 64 % 2`), which equals the source's mask-and-shift for a byte (`Tlm.StSpAreMaskShift`).
- Integer widths: Python integers are unbounded, and so are the model's.
- `HeaderScan.ScanOfWellFormedHeader`, `HeaderScan.ScanOfHeaderLayout` and `Validator.ValidationOfWellFormed` cover main headers with a single TLM segment whose encoded segments carry their true lengths. Headers with several TLM segments or with other byte layouts are covered by the one-step lemmas (`HeaderScan.ScanStepCases`, `HeaderScan.ScanTlmCases`) instead.
