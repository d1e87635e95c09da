/** Every way validation of a codestream can fail. */
module Failures {

  datatype Failure =
    | UnknownMarker(code: nat, offset: nat)  // a 16-bit code outside the marker table
    | DuplicateTlm(offset: nat)              // a TLM segment after one that yielded lengths
    | BadTlmLength(offset: nat)              // a TLM length field of 0: the payload read is refused
    | TlmTooShort(offset: nat)               // a TLM payload without an Stlm byte
    | RaggedTlm(offset: nat)                 // a TLM record area that is not a whole number of records
    | IncompleteLengthTable(count: nat)      // not exactly three tile-part lengths in the main header
    | InvalidMainHeaderLength(length: nat)   // no SOT reached, or the first SOT at offset 0
    | ReadError(offset: nat)                 // a trigger position at or past the end of the file
    | ForbiddenPattern(offset: nat)          // 0xFF 0xFF at a trigger pair
}
