/** Marker segments (ITU-T T.81 section B.2) and how jcmarker.c lays them out. */
module Markers {
  import opened Tokens
  import opened HuffmanCode
  import opened ScanCoding

  const SOF0: Byte := 0xC0
  const SOF1: Byte := 0xC1
  const SOF2: Byte := 0xC2
  const DHT: Byte := 0xC4
  const SOF9: Byte := 0xC9
  const SOF10: Byte := 0xCA
  const DAC: Byte := 0xCC
  const RST0: Byte := 0xD0
  const RST7: Byte := 0xD7
  const SOI: Byte := 0xD8
  const EOI: Byte := 0xD9
  const SOS: Byte := 0xDA
  const DQT: Byte := 0xDB
  const DNL: Byte := 0xDC
  const DRI: Byte := 0xDD
  const APP0: Byte := 0xE0
  const APP15: Byte := 0xEF
  const COM: Byte := 0xFE
  const TEM: Byte := 0x01

  const NUM_QUANT_TBLS: nat := 4
  const NUM_HUFF_TBLS: nat := 4

  /** Quantization values in zigzag order. */
  type QuantTbl = q: seq<nat> | |q| == 64 witness seq(64, _ => 0)

  predicate QuantOk(q: QuantTbl) {
    forall i :: 0 <= i < 64 ==> q[i] < 0x1_0000
  }

  datatype FrameComp = FrameComp(id: nat, h: nat, v: nat, quant: nat)

  datatype Frame = Frame(progressive: bool, precision: nat, height: nat, width: nat, comps: seq<FrameComp>)

  /** The parameters of a scan: its components with their table numbers, the band and
      the precisions. */
  datatype Scanning = Scanning(comps: seq<CompInfo>, Ss: nat, Se: nat, Ah: nat, Al: nat)

  /** Two bytes, the high one first; what does not fit is cut off. */
  function Two(v: nat): (r: seq<Byte>)
    ensures |r| == 2
  {
    [v / 256 % 256, v % 256]
  }

  // ----- tables -----

  /** A 16-bit table is needed. */
  predicate Wide(q: seq<nat>) {
    exists i :: 0 <= i < |q| && q[i] > 255
  }

  function QuantBytes(q: seq<nat>, wide: bool): (r: seq<Byte>)
    ensures |r| == if wide then 2 * |q| else |q|
  {
    if q == [] then []
    else (if wide then Two(q[0]) else [q[0] % 256]) + QuantBytes(q[1..], wide)
  }

  function DqtBytes(n: nat, q: QuantTbl): seq<Byte>
    requires n < NUM_QUANT_TBLS
  {
    var wide := Wide(q);
    [0xFF, DQT] + Two(if wide then 64 * 2 + 1 + 2 else 64 + 1 + 2) + [n + if wide then 16 else 0] + QuantBytes(q, wide)
  }

  /** The numbers of codes of each length fit their bytes. */
  predicate CountsFit(t: HuffTbl) {
    Shaped(t) && NumSymbols(t) <= 256 && forall l :: 1 <= l <= 16 ==> t.bits[l] < 256
  }

  function CountBytes(t: HuffTbl): (r: seq<Byte>)
    requires CountsFit(t)
    ensures |r| == 16
  {
    seq(16, i requires 0 <= i < 16 => t.bits[i + 1])
  }

  predicate IdOk(id: TableId) {
    id.no < NUM_HUFF_TBLS
  }

  function IdByte(id: TableId): Byte
    requires IdOk(id)
  {
    match id
    case Dc(no) => no
    case Ac(no) => no + 0x10
  }

  function DhtBytes(id: TableId, t: HuffTbl): seq<Byte>
    requires IdOk(id) && CountsFit(t)
  {
    [0xFF, DHT] + Two(NumSymbols(t) + 2 + 1 + 16) + [IdByte(id)] + CountBytes(t) + t.huffval[..NumSymbols(t)]
  }

  function DriBytes(ri: nat): seq<Byte> {
    [0xFF, DRI] + Two(4) + Two(ri)
  }

  // ----- frame and scan -----

  predicate FrameOk(f: Frame) {
    f.precision < 256 && 0 < f.height < 0x1_0000 && 0 < f.width < 0x1_0000 && 0 < |f.comps| < 256 &&
    forall i :: 0 <= i < |f.comps| ==> f.comps[i].h < 16 && f.comps[i].v < 16 && f.comps[i].quant < NUM_QUANT_TBLS
  }

  function FrameCompBytes(comps: seq<FrameComp>): (r: seq<Byte>)
    requires forall i :: 0 <= i < |comps| ==> comps[i].h < 16 && comps[i].v < 16 && comps[i].quant < NUM_QUANT_TBLS
    ensures |r| == 3 * |comps|
  {
    if comps == [] then []
    else [comps[0].id % 256, comps[0].h * 16 + comps[0].v, comps[0].quant] + FrameCompBytes(comps[1..])
  }

  function SofBytes(code: Byte, f: Frame): seq<Byte>
    requires FrameOk(f)
  {
    [0xFF, code] + Two(3 * |f.comps| + 2 + 5 + 1) + [f.precision] + Two(f.height) + Two(f.width) + [|f.comps|] +
    FrameCompBytes(f.comps)
  }

  predicate ScanningOk(f: Frame, s: Scanning) {
    1 <= |s.comps| <= 4 && s.Ss < 256 && s.Se < 256 && s.Ah < 16 && s.Al < 16 &&
    forall i :: 0 <= i < |s.comps| ==>
      s.comps[i].index < |f.comps| && s.comps[i].dcTbl < NUM_HUFF_TBLS && s.comps[i].acTbl < NUM_HUFF_TBLS
  }

  /** The table numbers of a component; zero stands for a table the scan does not use. */
  function UsedNumbers(progressive: bool, s: Scanning, c: CompInfo): CompInfo {
    if !progressive then c
    else if s.Ss == 0 then CompInfo(c.index, if s.Ah != 0 then 0 else c.dcTbl, 0)
    else CompInfo(c.index, 0, c.acTbl)
  }

  /** The tables that coding a component takes. */
  function TablesOf(progressive: bool, s: Scanning, c: CompInfo): seq<TableId> {
    if !progressive then [Dc(c.dcTbl), Ac(c.acTbl)]
    else if s.Ss == 0 then if s.Ah == 0 then [Dc(c.dcTbl)] else []
    else [Ac(c.acTbl)]
  }

  /** In the order in which they are written. */
  function ScanTableList(progressive: bool, s: Scanning, n: nat): (r: seq<TableId>)
    requires n <= |s.comps|
  {
    if n == 0 then [] else ScanTableList(progressive, s, n - 1) + TablesOf(progressive, s, s.comps[n - 1])
  }

  function ScanCompBytes(f: Frame, s: Scanning, comps: seq<CompInfo>): (r: seq<Byte>)
    requires forall i :: 0 <= i < |comps| ==>
      comps[i].index < |f.comps| && comps[i].dcTbl < NUM_HUFF_TBLS && comps[i].acTbl < NUM_HUFF_TBLS
    ensures |r| == 2 * |comps|
  {
    if comps == [] then []
    else
      var c := UsedNumbers(f.progressive, s, comps[0]);
      [f.comps[c.index].id % 256, c.dcTbl * 16 + c.acTbl] + ScanCompBytes(f, s, comps[1..])
  }

  function SosBytes(f: Frame, s: Scanning): seq<Byte>
    requires ScanningOk(f, s)
  {
    [0xFF, SOS] + Two(2 * |s.comps| + 2 + 1 + 3) + [|s.comps|] + ScanCompBytes(f, s, s.comps) +
    [s.Ss, s.Se, s.Ah * 16 + s.Al]
  }

  // ----- samples -----

  /** The frame header of a progressive YCbCr image of 640 x 480 samples, byte by byte. */
  lemma SampleFrame()
    ensures var f := Frame(true, 8, 480, 640, [FrameComp(1, 2, 2, 0), FrameComp(2, 1, 1, 1), FrameComp(3, 1, 1, 1)]);
            SofBytes(SOF2, f) ==
              [0xFF, 0xC2, 0, 17, 8, 0x01, 0xE0, 0x02, 0x80, 3, 1, 0x22, 0, 2, 0x11, 1, 3, 0x11, 1]
  {
    var c := [FrameComp(1, 2, 2, 0), FrameComp(2, 1, 1, 1), FrameComp(3, 1, 1, 1)];
    assert c[1..] == [FrameComp(2, 1, 1, 1), FrameComp(3, 1, 1, 1)] && c[1..][1..] == [FrameComp(3, 1, 1, 1)];
    assert c[1..][1..][1..] == [];
  }

  /** The headers of its first DC scan, of a refinement of a band of AC coefficients, and
      of the restart interval. */
  lemma SampleScans()
    ensures var f := Frame(true, 8, 480, 640, [FrameComp(1, 2, 2, 0), FrameComp(2, 1, 1, 1), FrameComp(3, 1, 1, 1)]);
            SosBytes(f, Scanning([CompInfo(0, 0, 0), CompInfo(1, 1, 1), CompInfo(2, 1, 1)], 0, 0, 0, 1)) ==
              [0xFF, 0xDA, 0, 12, 3, 1, 0x00, 2, 0x10, 3, 0x10, 0, 0, 0x01] &&
            SosBytes(f, Scanning([CompInfo(2, 1, 1)], 1, 63, 2, 1)) == [0xFF, 0xDA, 0, 8, 1, 3, 0x01, 1, 63, 0x21]
    ensures DriBytes(300) == [0xFF, 0xDD, 0, 4, 0x01, 0x2C]
  {
    var c := [CompInfo(0, 0, 0), CompInfo(1, 1, 1), CompInfo(2, 1, 1)];
    assert c[1..] == [CompInfo(1, 1, 1), CompInfo(2, 1, 1)] && c[1..][1..] == [CompInfo(2, 1, 1)];
    assert c[1..][1..][1..] == [];
    var d := [CompInfo(2, 1, 1)];
    assert d[1..] == [];
  }

  /** A table with one code of a bit, for symbol 5, as AC table 1; and the beginning of
      quantization table 2 in eight and in sixteen bits. */
  lemma SampleTables(t: HuffTbl, q: QuantTbl)
    requires t.bits == [0, 1, 0, 0, 0, 0, 0, 0, 0, 0, 0, 0, 0, 0, 0, 0, 0] && |t.huffval| == 256 && t.huffval[0] == 5
    ensures CountsFit(t) && DhtBytes(Ac(1), t) == [0xFF, 0xC4, 0, 20, 0x11, 1, 0, 0, 0, 0, 0, 0, 0, 0, 0, 0, 0, 0, 0, 0, 0, 5]
    ensures (forall i :: 0 <= i < 64 ==> q[i] <= 255) ==> DqtBytes(2, q)[..6] == [0xFF, 0xDB, 0, 67, 0x02, q[0]]
    ensures QuantOk(q) && q[63] == 256 ==> DqtBytes(2, q)[..7] == [0xFF, 0xDB, 0, 131, 0x12, q[0] / 256, q[0] % 256]
  {
    OneSymbolOnly(t, 17);
    assert t.huffval[..1] == [5];
    if QuantOk(q) && q[63] == 256 {
      assert Wide(q);
    }
  }

  lemma {:induction false} OneSymbolOnly(t: HuffTbl, l: nat)
    requires Shaped(t) && 2 <= l <= 17 && t.bits[1] == 1 && forall i :: 2 <= i <= 16 ==> t.bits[i] == 0
    ensures FirstIdx(t, l) == 1
  {
    if l > 2 { OneSymbolOnly(t, l - 1); }
  }
}
