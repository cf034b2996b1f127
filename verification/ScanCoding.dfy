/** One segment (restart interval) of a progressive scan, MCU by MCU, in any of
    the four progressive modes. */
module ScanCoding {
  import opened Bits
  import opened Wrappers
  import opened Tokens
  import opened AcCoding
  import opened DcCoding
  import opened AcRuns
  import First = AcFirstScan

  /** A component of a scan: its index in the frame and its table numbers. */
  datatype CompInfo = CompInfo(index: nat, dcTbl: nat, acTbl: nat)

  /** Scan parameters; membership[b] is the component of block b of an MCU. */
  datatype Scan = Scan(Ss: nat, Se: nat, Ah: nat, Al: nat, comps: seq<CompInfo>, membership: seq<nat>)

  type Mcu = seq<Block>

  /** What jcmaster.c guarantees about the current scan. */
  predicate ScanOk(s: Scan) {
    (forall b :: 0 <= b < |s.membership| ==> s.membership[b] < |s.comps|) &&
    s.Al <= 13 && (s.Ah != 0 ==> s.Ah == s.Al + 1) &&
    if s.Ss == 0 then s.Se == 0
    else s.Ss <= s.Se <= 63 && |s.comps| == 1 && s.membership == [0]
  }

  function BandOf(s: Scan): Band
    requires s.Ss > 0 ==> |s.comps| == 1
  {
    Band(s.Ss, s.Se, s.Ah, s.Al, if s.Ss > 0 then Ac(s.comps[0].acTbl) else Ac(0))
  }

  function DcTable(s: Scan, b: nat): TableId
    requires ScanOk(s) && b < |s.membership|
  {
    Dc(s.comps[s.membership[b]].dcTbl)
  }

  // ----- encoder -----

  datatype EncState = EncState(ac: AcState, lastDc: seq<int>)

  function EncInit(s: Scan): EncState {
    EncState(AcState([], 0, []), seq(|s.comps|, _ => 0))
  }

  /** The blocks of an MCU of a first DC scan, from block b on. */
  function EncDcFirst(s: Scan, lastDc: seq<int>, mcu: Mcu, b: nat): (res: (seq<Token>, seq<int>))
    requires ScanOk(s) && |lastDc| == |s.comps| && |mcu| == |s.membership|
    ensures |res.1| == |lastDc|
    decreases |mcu| - b
  {
    if b >= |mcu| then ([], lastDc)
    else
      var ci := s.membership[b];
      var v := Shr(mcu[b][0], s.Al);
      var (toks, last) := EncDcFirst(s, lastDc[ci := v], mcu, b + 1);
      (DiffTokens(DcTable(s, b), v - lastDc[ci]) + toks, last)
  }

  /** No difference from block b on exceeds what the encoder accepts. */
  predicate DcInRange(s: Scan, lastDc: seq<int>, mcu: Mcu, b: nat)
    requires ScanOk(s) && |lastDc| == |s.comps| && |mcu| == |s.membership|
    decreases |mcu| - b
  {
    b >= |mcu| ||
    (var ci := s.membership[b];
     var v := Shr(mcu[b][0], s.Al);
     BitLen(Abs(v - lastDc[ci])) <= 11 && DcInRange(s, lastDc[ci := v], mcu, b + 1))
  }

  function EncDcRefine(s: Scan, mcu: Mcu, b: nat): seq<Token>
    decreases |mcu| - b
  {
    if b >= |mcu| then [] else [Raw(Shr(mcu[b][0], s.Al), 1)] + EncDcRefine(s, mcu, b + 1)
  }

  function EncMcu(s: Scan, st: EncState, mcu: Mcu): (st1: EncState)
    requires ScanOk(s) && |st.lastDc| == |s.comps| && |mcu| == |s.membership|
    ensures |st1.lastDc| == |st.lastDc|
  {
    if s.Ss > 0 then st.(ac := AcStep(BandOf(s), st.ac, mcu[0]))
    else if s.Ah == 0 then
      var (toks, last) := EncDcFirst(s, st.lastDc, mcu, 0);
      EncState(st.ac.(toks := st.ac.toks + toks), last)
    else st.(ac := st.ac.(toks := st.ac.toks + EncDcRefine(s, mcu, 0)))
  }

  /** The encoder raises no JERR_BAD_DCT_COEF on the MCU. */
  ghost predicate McuInRange(s: Scan, st: EncState, mcu: Mcu)
    requires ScanOk(s) && |st.lastDc| == |s.comps| && |mcu| == |s.membership|
  {
    if s.Ah != 0 then true
    else if s.Ss > 0 then First.InRange(BandOf(s), mcu[0])
    else DcInRange(s, st.lastDc, mcu, 0)
  }

  predicate McusShaped(s: Scan, mcus: seq<Mcu>) {
    forall i :: 0 <= i < |mcus| ==> |mcus[i]| == |s.membership|
  }

  function EncFold(s: Scan, st: EncState, mcus: seq<Mcu>): (st1: EncState)
    requires ScanOk(s) && |st.lastDc| == |s.comps| && McusShaped(s, mcus)
    ensures |st1.lastDc| == |st.lastDc|
    decreases mcus
  {
    if mcus == [] then st else EncFold(s, EncMcu(s, st, mcus[0]), mcus[1..])
  }

  ghost predicate FoldInRange(s: Scan, st: EncState, mcus: seq<Mcu>)
    requires ScanOk(s) && |st.lastDc| == |s.comps| && McusShaped(s, mcus)
    decreases mcus
  {
    mcus == [] || (McuInRange(s, st, mcus[0]) && FoldInRange(s, EncMcu(s, st, mcus[0]), mcus[1..]))
  }

  /** All tokens of a segment. */
  function SegmentTokens(s: Scan, mcus: seq<Mcu>): seq<Token>
    requires ScanOk(s) && McusShaped(s, mcus)
  {
    Flush(BandOf(s).id, EncFold(s, EncInit(s), mcus).ac).toks
  }

  // ----- decoder -----

  datatype DecState = DecState(bits: seq<bool>, eobrun: nat, lastDc: seq<int>)

  function DecInit(s: Scan, bits: seq<bool>): DecState {
    DecState(bits, 0, seq(|s.comps|, _ => 0))
  }

  /** The decoder has the tables the scan refers to. */
  predicate TablesFor(s: Scan, T: Tables)
    requires ScanOk(s)
  {
    if s.Ss > 0 then BandOf(s).id in T
    else s.Ah == 0 ==> forall b :: 0 <= b < |s.membership| ==> DcTable(s, b) in T
  }

  function DecDcFirst(s: Scan, T: Tables, bits: seq<bool>, lastDc: seq<int>, mcu: Mcu, b: nat):
      (res: Option<(seq<bool>, seq<int>, Mcu)>)
    requires ScanOk(s) && s.Ss == 0 && s.Ah == 0 && TablesFor(s, T)
    requires |lastDc| == |s.comps| && |mcu| == |s.membership|
    ensures res.Some? ==> |res.value.1| == |lastDc| && |res.value.2| == |mcu|
    decreases |mcu| - b
  {
    if b >= |mcu| then Some((bits, lastDc, mcu))
    else
      match ReadDiff(T[DcTable(s, b)].read, bits)
      case None => None
      case Some((d, bits1)) =>
        var ci := s.membership[b];
        var v := lastDc[ci] + d;
        DecDcFirst(s, T, bits1, lastDc[ci := v], mcu[b := mcu[b][0 := ToShort(v * Pow2(s.Al))]], b + 1)
  }

  function DecDcRefine(s: Scan, bits: seq<bool>, mcu: Mcu, b: nat): (res: Option<(seq<bool>, Mcu)>)
    ensures res.Some? ==> |res.value.1| == |mcu|
    decreases |mcu| - b
  {
    if b >= |mcu| then Some((bits, mcu))
    else if bits == [] then None
    else
      DecDcRefine(s, bits[1..],
                  mcu[b := mcu[b][0 := ToShort(if bits[0] then SetBit(mcu[b][0], s.Al) else mcu[b][0])]], b + 1)
  }

  function DecMcu(s: Scan, T: Tables, st: DecState, mcu: Mcu): (res: Option<(DecState, Mcu)>)
    requires ScanOk(s) && TablesFor(s, T) && |st.lastDc| == |s.comps| && |mcu| == |s.membership|
    ensures res.Some? ==> |res.value.0.lastDc| == |s.comps| && |res.value.1| == |mcu|
  {
    if s.Ss > 0 then
      match DecAcBlock(BandOf(s), T[BandOf(s).id].read, st.eobrun, mcu[0], st.bits)
      case None => None
      case Some(d) => Some((DecState(d.bits, d.eobrun, st.lastDc), [d.blk]))
    else if s.Ah == 0 then
      match DecDcFirst(s, T, st.bits, st.lastDc, mcu, 0)
      case None => None
      case Some((bits, last, mcu1)) => Some((DecState(bits, st.eobrun, last), mcu1))
    else
      match DecDcRefine(s, st.bits, mcu, 0)
      case None => None
      case Some((bits, mcu1)) => Some((st.(bits := bits), mcu1))
  }

  function DecFold(s: Scan, T: Tables, st: DecState, mcus: seq<Mcu>): (res: Option<(DecState, seq<Mcu>)>)
    requires ScanOk(s) && TablesFor(s, T) && |st.lastDc| == |s.comps| && McusShaped(s, mcus)
    ensures res.Some? ==> |res.value.0.lastDc| == |s.comps| && |res.value.1| == |mcus|
    decreases mcus
  {
    if mcus == [] then Some((st, []))
    else
      match DecMcu(s, T, st, mcus[0])
      case None => None
      case Some((st1, mcu1)) =>
        match DecFold(s, T, st1, mcus[1..])
        case None => None
        case Some((st2, more)) => Some((st2, [mcu1] + more))
  }
}
