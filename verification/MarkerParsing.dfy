/** What jdmarker.c makes of marker segments, as functions of the bytes at hand. */
module MarkerParsing {
  import opened Wrappers
  import opened Tokens
  import opened ByteStream
  import opened HuffmanCode
  import opened Markers

  datatype MarkerError =
    | NoSoi | SoiDuplicate | SofDuplicate | SosNoSof
    | EmptyImage | BadLength | BadComponentId
    | BadHuffTable | DhtIndex | DqtIndex
    | SofUnsupported | UnknownMarker

  /** The parts of the decompression object that markers set. dcTbl and acTbl are the
      components' table numbers, cur the components of the current scan. */
  datatype State = State(sawSoi: bool, sawSof: bool, arith: bool, frame: Frame,
                         quant: map<nat, QuantTbl>, huff: map<TableId, HuffTbl>, ri: nat,
                         dcTbl: seq<nat>, acTbl: seq<nat>,
                         cur: seq<nat>, Ss: nat, Se: nat, Ah: nat, Al: nat)

  predicate StateOk(st: State) {
    st.sawSof ==> |st.dcTbl| == |st.acTbl| == |st.frame.comps|
  }

  /** Before a file is read. */
  function NoState(): State {
    State(false, false, false, Frame(false, 0, 0, 0, []), map[], map[], 0, [], [], [], 0, 0, 0, 0)
  }

  /** Short: the bytes end before the segment does. */
  datatype Parsed = Short | Bad(error: MarkerError) | Got(st: State, rest: seq<Byte>)

  function Word(bytes: seq<Byte>): nat
    requires |bytes| >= 2
  {
    bytes[0] as int * 256 + bytes[1]
  }

  // ----- get_dqt -----

  /** k values of one or two bytes each. */
  function ReadQuant(k: nat, wide: bool, bytes: seq<Byte>): (r: Option<(seq<nat>, seq<Byte>)>)
    ensures r.Some? ==> |r.value.0| == k && |r.value.1| <= |bytes|
  {
    if k == 0 then Some(([], bytes))
    else if |bytes| < if wide then 2 else 1 then None
    else
      match ReadQuant(k - 1, wide, bytes[if wide then 2 else 1..])
      case None => None
      case Some((q, rest)) => Some(([if wide then Word(bytes) else bytes[0]] + q, rest))
  }

  function DqtTables(st: State, length: int, bytes: seq<Byte>): Parsed
    decreases |bytes|
  {
    if length <= 0 then if length != 0 then Bad(BadLength) else Got(st, bytes)
    else if |bytes| < 1 then Short
    else
      var wide, n := bytes[0] / 16 != 0, bytes[0] % 16;
      if n >= NUM_QUANT_TBLS then Bad(DqtIndex)
      else
        match ReadQuant(64, wide, bytes[1..])
        case None => Short
        case Some((q, rest)) =>
          DqtTables(st.(quant := st.quant[n := q]), length - 65 - if wide then 64 else 0, rest)
  }

  function GetDqt(st: State, bytes: seq<Byte>): Parsed {
    if |bytes| < 2 then Short else DqtTables(st, Word(bytes) - 2, bytes[2..])
  }

  // ----- get_dht -----

  function Sum(bytes: seq<Byte>): nat {
    if bytes == [] then 0 else Sum(bytes[..|bytes| - 1]) + bytes[|bytes| - 1]
  }

  /** The table an index byte refers to. */
  function DefinedTable(b: Byte): Option<TableId> {
    var id := if b / 16 % 2 == 1 then Ac(b - 16) else Dc(b);
    if IdOk(id) then Some(id) else None
  }

  /** A table from the numbers of codes and the symbols sent; the list of symbols is
      filled up, here with zeros. */
  function TableFrom(counts: seq<Byte>, symbols: seq<Byte>): HuffTbl
    requires |symbols| <= 256
  {
    HuffTbl([0] + counts, symbols + seq(256 - |symbols|, _ => 0))
  }

  function DhtTables(st: State, length: int, bytes: seq<Byte>): Parsed
    decreases |bytes|
  {
    if length <= 16 then if length != 0 then Bad(BadLength) else Got(st, bytes)
    else if |bytes| < 17 then Short
    else
      var count := Sum(bytes[1..17]);
      if count > 256 || count > length - 17 then Bad(BadHuffTable)
      else if |bytes| < 17 + count then Short
      else
        match DefinedTable(bytes[0])
        case None => Bad(DhtIndex)
        case Some(id) =>
          DhtTables(st.(huff := st.huff[id := TableFrom(bytes[1..17], bytes[17..17 + count])]),
                    length - 17 - count, bytes[17 + count..])
  }

  function GetDht(st: State, bytes: seq<Byte>): Parsed {
    if |bytes| < 2 then Short else DhtTables(st, Word(bytes) - 2, bytes[2..])
  }

  // ----- get_dri, get_soi, skip_variable -----

  function GetDri(st: State, bytes: seq<Byte>): Parsed {
    if |bytes| < 2 then Short
    else if Word(bytes) != 4 then Bad(BadLength)
    else if |bytes| < 4 then Short
    else Got(st.(ri := Word(bytes[2..])), bytes[4..])
  }

  function GetSoi(st: State, bytes: seq<Byte>): Parsed {
    if st.sawSoi then Bad(SoiDuplicate) else Got(st.(ri := 0, sawSoi := true), bytes)
  }

  function SkipVariable(st: State, bytes: seq<Byte>): Parsed {
    if |bytes| < 2 then Short
    else if Word(bytes) <= 2 then Got(st, bytes[2..])
    else if |bytes| < Word(bytes) then Got(st, [])
    else Got(st, bytes[Word(bytes)..])
  }

  // ----- get_sof -----

  function ReadFrameComps(k: nat, bytes: seq<Byte>): (r: Option<(seq<FrameComp>, seq<Byte>)>)
    ensures r.Some? ==> |r.value.0| == k && |r.value.1| <= |bytes|
  {
    if k == 0 then Some(([], bytes))
    else if |bytes| < 3 then None
    else
      match ReadFrameComps(k - 1, bytes[3..])
      case None => None
      case Some((comps, rest)) => Some(([FrameComp(bytes[0], bytes[1] / 16, bytes[1] % 16, bytes[2])] + comps, rest))
  }

  /** Components without table numbers yet. */
  function NoTables(n: nat): (r: seq<nat>)
    ensures |r| == n
  {
    seq(n, _ => 0)
  }

  /** What follows the frame parameters: n components. */
  function SofComps(st: State, arith: bool, f: Frame, length: int, n: nat, bytes: seq<Byte>): Parsed {
    if st.sawSof then Bad(SofDuplicate)
    else if f.height <= 0 || f.width <= 0 || n <= 0 then Bad(EmptyImage)
    else if length != n * 3 then Bad(BadLength)
    else
      match ReadFrameComps(n, bytes)
      case None => Short
      case Some((comps, rest)) =>
        Got(st.(arith := arith, frame := f.(comps := comps), sawSof := true,
                dcTbl := NoTables(n), acTbl := NoTables(n)), rest)
  }

  function GetSof(st: State, progressive: bool, arith: bool, bytes: seq<Byte>): Parsed {
    if |bytes| < 8 then Short
    else SofComps(st, arith, Frame(progressive, bytes[2], Word(bytes[3..]), Word(bytes[5..]), []),
                  Word(bytes) - 8, bytes[7], bytes[8..])
  }

  // ----- get_sos -----

  /** The first component with the given id. */
  function FindComp(comps: seq<FrameComp>, id: nat, ci: nat): (r: Option<nat>)
    requires ci <= |comps|
    ensures r.Some? ==> ci <= r.value < |comps| && comps[r.value].id == id
    ensures forall i :: ci <= i < (if r.Some? then r.value else |comps|) ==> comps[i].id != id
    decreases |comps| - ci
  {
    if ci == |comps| then None
    else if id == comps[ci].id then Some(ci)
    else FindComp(comps, id, ci + 1)
  }

  function SosComps(st: State, k: nat, bytes: seq<Byte>): (r: Parsed)
    requires |st.dcTbl| == |st.acTbl| == |st.frame.comps|
    ensures r.Got? ==> |r.st.dcTbl| == |r.st.acTbl| == |r.st.frame.comps| && |r.rest| <= |bytes| && r.st.sawSoi == st.sawSoi
    decreases k
  {
    if k == 0 then Got(st, bytes)
    else if |bytes| < 2 then Short
    else
      match FindComp(st.frame.comps, bytes[0], 0)
      case None => Bad(BadComponentId)
      case Some(ci) =>
        SosComps(st.(cur := st.cur + [ci], dcTbl := st.dcTbl[ci := bytes[1] / 16], acTbl := st.acTbl[ci := bytes[1] % 16]),
                 k - 1, bytes[2..])
  }

  function GetSos(st: State, bytes: seq<Byte>): Parsed
    requires StateOk(st)
  {
    if !st.sawSof then Bad(SosNoSof)
    else if |bytes| < 3 then Short
    else
      var length, n: int := Word(bytes), bytes[2];
      if length != n * 2 + 6 || n < 1 || n > 4 then Bad(BadLength)
      else
        SosBand(SosComps(st.(cur := []), n, bytes[3..]))
  }

  /** What follows the component list of a scan header. */
  function SosBand(r: Parsed): Parsed {
    match r
    case Short => Short
    case Bad(e) => Bad(e)
    case Got(st, bytes) =>
      if |bytes| < 3 then Short
      else Got(st.(Ss := bytes[0], Se := bytes[1], Ah := bytes[2] / 16, Al := bytes[2] % 16), bytes[3..])
  }

  // ----- read_markers -----

  /** One marker, other than EOI, with its parameters. */
  function Process(st: State, m: Byte, bytes: seq<Byte>): Parsed
    requires StateOk(st)
  {
    if m == SOI then GetSoi(st, bytes)
    else if m == SOF0 || m == SOF1 then GetSof(st, false, false, bytes)
    else if m == SOF2 then GetSof(st, true, false, bytes)
    else if m == SOF9 then GetSof(st, false, true, bytes)
    else if m == SOF10 then GetSof(st, true, true, bytes)
    else if 0xC3 <= m <= 0xCF && m != DHT && m != DAC then Bad(SofUnsupported)
    else if m == SOS then GetSos(st, bytes)
    else if m == DHT then GetDht(st, bytes)
    else if m == DQT then GetDqt(st, bytes)
    else if m == DRI then GetDri(st, bytes)
    else if m == DAC || m == DNL || m == COM || APP0 <= m <= APP15 then SkipVariable(st, bytes)
    else if RST0 <= m <= RST7 || m == TEM then Got(st, bytes)
    else Bad(UnknownMarker)
  }

  lemma ProcessKeeps(st: State, m: Byte, bytes: seq<Byte>)
    requires StateOk(st)
    ensures var r := Process(st, m, bytes);
            r.Got? ==> StateOk(r.st) && |r.rest| <= |bytes| && (st.sawSoi || m == SOI ==> r.st.sawSoi)
  {
    if m == DQT && |bytes| >= 2 {
      DqtKeeps(st, Word(bytes) - 2, bytes[2..]);
    } else if m == DHT && |bytes| >= 2 {
      DhtKeeps(st, Word(bytes) - 2, bytes[2..]);
    }
  }

  lemma {:induction false} DqtKeeps(st: State, length: int, bytes: seq<Byte>)
    ensures var r := DqtTables(st, length, bytes);
            r.Got? ==> |r.rest| <= |bytes| && r.st == st.(quant := r.st.quant)
    decreases |bytes|
  {
    if length > 0 && |bytes| >= 1 && bytes[0] % 16 < NUM_QUANT_TBLS {
      var wide, n := bytes[0] / 16 != 0, bytes[0] % 16;
      match ReadQuant(64, wide, bytes[1..])
      case None =>
      case Some((q, rest)) => DqtKeeps(st.(quant := st.quant[n := q]), length - 65 - if wide then 64 else 0, rest);
    }
  }

  lemma {:induction false} DhtKeeps(st: State, length: int, bytes: seq<Byte>)
    ensures var r := DhtTables(st, length, bytes);
            r.Got? ==> |r.rest| <= |bytes| && r.st == st.(huff := r.st.huff)
    decreases |bytes|
  {
    if length > 16 && |bytes| >= 17 {
      var count := Sum(bytes[1..17]);
      if count <= 256 && count <= length - 17 && |bytes| >= 17 + count && DefinedTable(bytes[0]).Some? {
        DhtKeeps(st.(huff := st.huff[DefinedTable(bytes[0]).value := TableFrom(bytes[1..17], bytes[17..17 + count])]),
                 length - 17 - count, bytes[17 + count..]);
      }
    }
  }

  datatype Outcome = Suspended | Failed(error: MarkerError) | ReachedSos(st: State, rest: seq<Byte>) | ReachedEoi(st: State, rest: seq<Byte>)

  /** Markers up to SOS or EOI, when marker m has been found and the given bytes follow
      it; 0 if none is found. Anything between markers is skipped. */
  function ReadMarkers(st: State, m: Byte, bytes: seq<Byte>): Outcome
    requires StateOk(st)
    decreases |bytes|, if m == 0 then 0 else 1
  {
    if m == 0 then Suspended
    else if m == EOI then ReachedEoi(st, bytes)
    else
      match Process(st, m, bytes)
      case Short => Suspended
      case Bad(e) => Failed(e)
      case Got(st1, rest) =>
        ProcessKeeps(st, m, bytes);
        LookShrinks(rest);
        if m == SOS then ReachedSos(st1, rest) else ReadMarkers(st1, Look(rest).marker, Look(rest).rest)
  }

  /** The same, when the marker is yet to be found. */
  function Reads(st: State, bytes: seq<Byte>): Outcome
    requires StateOk(st)
  {
    ReadMarkers(st, Look(bytes).marker, Look(bytes).rest)
  }

  lemma {:induction false} LookShrinks(bytes: seq<Byte>)
    ensures var a := Look(bytes); |a.rest| <= |bytes| && (a.marker != 0 ==> |a.rest| < |bytes|)
    decreases |bytes|
  {
    if bytes != [] {
      var r := SkipFill(bytes[1..]);
      if bytes[0] != 0xFF {
        LookShrinks(bytes[1..]);
      } else if r != [] && r[0] == 0 {
        LookShrinks(r[1..]);
      }
    }
  }

  /** From the beginning of a file: SOI must come first. */
  function ReadsFirst(st: State, bytes: seq<Byte>): Outcome
    requires StateOk(st)
  {
    if |bytes| < 2 then Suspended
    else if bytes[0] != 0xFF || bytes[1] != SOI then Failed(NoSoi)
    else ReadMarkers(st, SOI, bytes[2..])
  }
}
