/**
 * The closed table of marker codes the validator recognises (ITU-T T.800,
 * Table A.2), each flagged as length-less ("empty": no length field and no
 * payload) or length-prefixed.
 */
module Markers {
  import opened Results
  import opened Bytes

  datatype Marker =
    | SOT  // start of tile-part
    | SOD  // start of data
    | EPH  // end of packet header
    | SOP  // start of packet
    | EOC  // end of codestream
    | SOC  // start of codestream
    | SIZ  // image and tile size
    | COD  // coding style default
    | QCD  // quantization default
    | POC  // progression order change
    | COM  // comment
    | TLM  // tile-part lengths

  /** The 16-bit code of a marker; every code begins with the byte 0xFF. */
  function Code(m: Marker): (c: nat)
    ensures c / 256 == 0xFF
  {
    match m
    case SOT => 0xFF90
    case SOD => 0xFF93
    case EPH => 0xFF92
    case SOP => 0xFF91
    case EOC => 0xFFD9
    case SOC => 0xFF4F
    case SIZ => 0xFF51
    case COD => 0xFF52
    case QCD => 0xFF5C
    case POC => 0xFF5F
    case COM => 0xFF64
    case TLM => 0xFF55
  }

  /** A length-less marker: no length field and no payload follow its code. */
  predicate IsEmpty(m: Marker) {
    m == SOD || m == EPH || m == EOC || m == SOC
  }

  /** The twelve codes of the table. */
  const KnownCodes: set<nat> :=
    {0xFF90, 0xFF93, 0xFF92, 0xFF91, 0xFFD9, 0xFF4F, 0xFF51, 0xFF52, 0xFF5C, 0xFF5F, 0xFF64, 0xFF55}

  /** The codes of the length-less markers. */
  const EmptyCodes: set<nat> := {0xFF93, 0xFF92, 0xFFD9, 0xFF4F}

  /** Lookup of a marker by its code; None is the lookup failure for a code outside the table. */
  function FromCode(c: nat): (r: Option<Marker>)
    ensures r.Some? <==> c in KnownCodes
    ensures r.Some? ==> Code(r.value) == c
    ensures r.Some? ==> (IsEmpty(r.value) <==> c in EmptyCodes)
  {
    if c == 0xFF90 then Some(SOT)
    else if c == 0xFF93 then Some(SOD)
    else if c == 0xFF92 then Some(EPH)
    else if c == 0xFF91 then Some(SOP)
    else if c == 0xFFD9 then Some(EOC)
    else if c == 0xFF4F then Some(SOC)
    else if c == 0xFF51 then Some(SIZ)
    else if c == 0xFF52 then Some(COD)
    else if c == 0xFF5C then Some(QCD)
    else if c == 0xFF5F then Some(POC)
    else if c == 0xFF64 then Some(COM)
    else if c == 0xFF55 then Some(TLM)
    else None
  }

  /** Looking a marker up by its own code finds that marker: no two markers share a code. */
  lemma {:induction false} FromCodeOfCode(m: Marker)
    ensures FromCode(Code(m)) == Some(m)
    ensures Code(m) in KnownCodes
    ensures IsEmpty(m) <==> Code(m) in EmptyCodes
  {
    match m
    case SOT =>
    case SOD =>
    case EPH =>
    case SOP =>
    case EOC =>
    case SOC =>
    case SIZ =>
    case COD =>
    case QCD =>
    case POC =>
    case COM =>
    case TLM =>
  }

  lemma CodeInjective(m1: Marker, m2: Marker)
    ensures Code(m1) == Code(m2) <==> m1 == m2
  {
    FromCodeOfCode(m1);
    FromCodeOfCode(m2);
  }
}
