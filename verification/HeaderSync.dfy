/** Headers that leave out what has been sent before (jcmarker.c) and the decoder that
    reads them (jdmarker.c): at every scan it has the tables and parameters of the encoder. */
module HeaderSync {
  import opened Bits
  import opened Wrappers
  import opened Tokens
  import opened ByteStream
  import opened HuffmanCode
  import opened ScanCoding
  import opened Markers
  import opened MarkerParsing

  /** A table and its sent_table flag. */
  datatype Entry<T> = Entry(tbl: T, sent: bool)

  /** The encoder's tables, and the last restart interval written. */
  datatype Sender = Sender(quant: map<nat, Entry<QuantTbl>>, huff: map<TableId, Entry<HuffTbl>>, ri: nat)

  ghost predicate SenderOk(w: Sender) {
    (forall n :: n in w.quant ==> n < NUM_QUANT_TBLS && QuantOk(w.quant[n].tbl)) &&
    (forall id :: id in w.huff ==> IdOk(id) && CountsFit(w.huff[id].tbl))
  }

  /** Only sent_table flags and the restart interval differ. */
  ghost predicate SameTables(w: Sender, w1: Sender) {
    w1.quant.Keys == w.quant.Keys && w1.huff.Keys == w.huff.Keys &&
    (forall n :: n in w.quant ==> w1.quant[n].tbl == w.quant[n].tbl && (w.quant[n].sent ==> w1.quant[n].sent)) &&
    (forall id :: id in w.huff ==> w1.huff[id].tbl == w.huff[id].tbl && (w.huff[id].sent ==> w1.huff[id].sent))
  }

  /** The encoder has the first k tables of a list. */
  ghost predicate AllIn(w: Sender, ids: seq<TableId>, k: nat) {
    k <= |ids| && forall i :: 0 <= i < k ==> ids[i] in w.huff
  }

  // ----- what is written -----

  /** emit_dqt */
  ghost function SendQuant(w: Sender, n: nat): (r: (Sender, seq<Byte>))
    requires SenderOk(w) && n in w.quant
    ensures SenderOk(r.0) && r.0.quant.Keys == w.quant.Keys && r.0.huff == w.huff && r.0.ri == w.ri
  {
    if w.quant[n].sent then (w, [])
    else (w.(quant := w.quant[n := w.quant[n].(sent := true)]), DqtBytes(n, w.quant[n].tbl))
  }

  /** emit_dht */
  ghost function SendHuff(w: Sender, id: TableId): (r: (Sender, seq<Byte>))
    requires SenderOk(w) && id in w.huff
    ensures SenderOk(r.0) && r.0.huff.Keys == w.huff.Keys && r.0.quant == w.quant && r.0.ri == w.ri
  {
    if w.huff[id].sent then (w, [])
    else (w.(huff := w.huff[id := w.huff[id].(sent := true)]), DhtBytes(id, w.huff[id].tbl))
  }

  /** The tables of the first k components. */
  ghost function SendQuants(w: Sender, comps: seq<FrameComp>, k: nat): (r: (Sender, seq<Byte>))
    requires SenderOk(w) && k <= |comps| && forall i :: 0 <= i < k ==> comps[i].quant in w.quant
    ensures SenderOk(r.0) && r.0.quant.Keys == w.quant.Keys && r.0.huff == w.huff && r.0.ri == w.ri
  {
    if k == 0 then (w, [])
    else
      var (w1, bytes) := SendQuants(w, comps, k - 1);
      var (w2, more) := SendQuant(w1, comps[k - 1].quant);
      (w2, bytes + more)
  }

  /** The first k tables of a list. */
  ghost function SendHuffs(w: Sender, ids: seq<TableId>, k: nat): (r: (Sender, seq<Byte>))
    requires SenderOk(w) && AllIn(w, ids, k)
    ensures SenderOk(r.0) && r.0.huff.Keys == w.huff.Keys && r.0.quant == w.quant && r.0.ri == w.ri
  {
    if k == 0 then (w, [])
    else
      var (w1, bytes) := SendHuffs(w, ids, k - 1);
      var (w2, more) := SendHuff(w1, ids[k - 1]);
      (w2, bytes + more)
  }

  lemma QuantSent(w: Sender, w0: Sender, n: nat)
    requires SenderOk(w) && n in w.quant && SameTables(w0, w)
    ensures SameTables(w0, SendQuant(w, n).0) && SendQuant(w, n).0.quant[n].sent
    ensures forall m :: m in w.quant && w.quant[m].sent ==> SendQuant(w, n).0.quant[m].sent
  {
    hide SenderOk, DqtBytes;
  }

  lemma HuffSent(w: Sender, w0: Sender, id: TableId)
    requires SenderOk(w) && id in w.huff && SameTables(w0, w)
    ensures SameTables(w0, SendHuff(w, id).0) && SendHuff(w, id).0.huff[id].sent
    ensures forall i :: i in w.huff && w.huff[i].sent ==> SendHuff(w, id).0.huff[i].sent
  {
    hide SenderOk, DhtBytes;
  }

  lemma {:induction false} QuantsSent(w: Sender, comps: seq<FrameComp>, k: nat)
    requires SenderOk(w) && k <= |comps| && forall i :: 0 <= i < k ==> comps[i].quant in w.quant
    ensures var w1 := SendQuants(w, comps, k).0;
            SameTables(w, w1) && forall i :: 0 <= i < k ==> w1.quant[comps[i].quant].sent
  {
    hide SenderOk, SendQuant;
    if k == 0 {
      assert SameTables(w, w);
    } else {
      hide SameTables;
      QuantsSent(w, comps, k - 1);
      QuantSent(SendQuants(w, comps, k - 1).0, w, comps[k - 1].quant);
    }
  }

  lemma {:induction false} HuffsSent(w: Sender, ids: seq<TableId>, k: nat)
    requires SenderOk(w) && AllIn(w, ids, k)
    ensures var w1 := SendHuffs(w, ids, k).0;
            SameTables(w, w1) && forall i :: 0 <= i < k ==> w1.huff[ids[i]].sent
  {
    hide SenderOk, SendHuff;
    if k == 0 {
      assert SameTables(w, w);
    } else {
      hide SameTables;
      HuffsSent(w, ids, k - 1);
      HuffSent(SendHuffs(w, ids, k - 1).0, w, ids[k - 1]);
    }
  }

  ghost predicate FrameReady(w: Sender, f: Frame) {
    SenderOk(w) && FrameOk(f) && forall i :: 0 <= i < |f.comps| ==> f.comps[i].quant in w.quant
  }

  /** write_frame_header, with the given SOF code. */
  ghost function FrameHeader(w: Sender, f: Frame, code: Byte): (Sender, seq<Byte>)
    requires FrameReady(w, f)
  {
    var (w1, bytes) := SendQuants(w, f.comps, |f.comps|);
    (w1, bytes + SofBytes(code, f))
  }

  ghost predicate ScanReady(w: Sender, f: Frame, s: Scanning) {
    SenderOk(w) && ScanningOk(f, s) && AllIn(w, TableList(f, s), |TableList(f, s)|)
  }

  /** The tables a scan is coded with, in the order in which they are written. */
  function TableList(f: Frame, s: Scanning): seq<TableId> {
    ScanTableList(f.progressive, s, |s.comps|)
  }

  lemma TableListNext(f: Frame, s: Scanning, i: nat)
    requires i < |s.comps|
    ensures var ids, n := TableList(f, s), |ScanTableList(f.progressive, s, i)|;
            var own := TablesOf(f.progressive, s, s.comps[i]);
            n + |own| == |ScanTableList(f.progressive, s, i + 1)| <= |ids| && forall j :: 0 <= j < |own| ==> ids[n + j] == own[j]
  {
    ListPrefix(f, s, i + 1, |s.comps|);
  }

  lemma {:induction false} ListPrefix(f: Frame, s: Scanning, i: nat, j: nat)
    requires i <= j <= |s.comps|
    ensures ScanTableList(f.progressive, s, i) <= ScanTableList(f.progressive, s, j)
    decreases j - i
  {
    if i < j { ListPrefix(f, s, i, j - 1); }
  }

  /** write_scan_header */
  ghost function ScanHeader(w: Sender, f: Frame, s: Scanning, ri: nat): (r: (Sender, seq<Byte>))
    requires ScanReady(w, f, s)
  {
    var ids := TableList(f, s);
    var (w1, bytes) := SendHuffs(w, ids, |ids|);
    (w1.(ri := ri), bytes + (if ri != w.ri then DriBytes(ri) else []) + SosBytes(f, s))
  }

  // ----- what is read -----

  /** A table as the decoder gets it. */
  function Received(t: HuffTbl): HuffTbl
    requires CountsFit(t)
  {
    TableFrom(CountBytes(t), t.huffval[..NumSymbols(t)])
  }

  /** Component ids are sent as bytes. */
  function ByteIds(comps: seq<FrameComp>): (r: seq<FrameComp>)
    ensures |r| == |comps|
  {
    seq(|comps|, i requires 0 <= i < |comps| => comps[i].(id := comps[i].id % 256))
  }

  /** The frame as the decoder gets it. */
  function Transmitted(f: Frame): (g: Frame)
    ensures |g.comps| == |f.comps|
  {
    f.(comps := ByteIds(f.comps))
  }

  /** The decoder has every table that the encoder has sent, and its restart interval. */
  ghost predicate InStep(w: Sender, st: State)
    requires SenderOk(w)
  {
    st.ri == w.ri % 0x1_0000 &&
    (forall n :: n in w.quant && w.quant[n].sent ==> n in st.quant && st.quant[n] == w.quant[n].tbl) &&
    (forall id :: id in w.huff && w.huff[id].sent ==> id in st.huff && st.huff[id] == Received(w.huff[id].tbl))
  }

  lemma TwoWord(v: nat, more: seq<Byte>)
    ensures Word(Two(v) + more) == v % 0x1_0000 && (Two(v) + more)[2..] == more
  {
    var b, c := v / 256, v % 256;
    var q, d := b / 256, b % 256;
    assert v == q * 0x1_0000 + (d * 256 + c);
    DivBounds(v, 0x1_0000, q);
    assert (Two(v) + more)[0] == d && (Two(v) + more)[1] == c;
  }

  /** A marker found at once, with its parameters. */
  lemma PassMarker(st: State, m: Byte, bytes: seq<Byte>, st1: State, rest: seq<Byte>)
    requires StateOk(st) && 0 < m < 0xFF && m != EOI && Process(st, m, bytes) == Got(st1, rest)
    ensures StateOk(st1)
    ensures Reads(st, [0xFF, m] + bytes) == if m == SOS then ReachedSos(st1, rest) else Reads(st1, rest)
  {
    hide Process, Look;
    LookMarker(m, bytes);
    ProcessKeeps(st, m, bytes);
  }

  // ----- DQT -----

  lemma {:induction false} QuantInverts(q: seq<nat>, wide: bool, more: seq<Byte>)
    requires forall i :: 0 <= i < |q| ==> q[i] < if wide then 0x1_0000 else 256
    ensures ReadQuant(|q|, wide, QuantBytes(q, wide) + more) == Some((q, more))
  {
    if q == [] {
      assert QuantBytes(q, wide) + more == more;
    } else {
      var first := if wide then Two(q[0]) else [q[0] % 256];
      var rest := QuantBytes(q[1..], wide) + more;
      assert QuantBytes(q, wide) + more == first + rest;
      QuantInverts(q[1..], wide, more);
      if wide {
        TwoWord(q[0], rest);
      } else {
        assert (first + rest)[1..] == rest;
      }
      assert [q[0]] + q[1..] == q;
    }
  }

  lemma DqtRead(st: State, n: nat, q: QuantTbl, more: seq<Byte>)
    requires StateOk(st) && n < NUM_QUANT_TBLS && QuantOk(q)
    ensures Reads(st, DqtBytes(n, q) + more) == Reads(st.(quant := st.quant[n := q]), more)
  {
    hide ReadQuant, QuantBytes, Two, Word, Reads, Wide;
    var wide := Wide(q);
    var length := if wide then 64 * 2 + 1 + 2 else 64 + 1 + 2;
    var tail := [n + if wide then 16 else 0] + (QuantBytes(q, wide) + more);
    assert DqtBytes(n, q) + more == [0xFF, DQT] + (Two(length) + tail);
    TwoWord(length, tail);
    assert tail[1..] == QuantBytes(q, wide) + more;
    WideFits(q);
    QuantInverts(q, wide, more);
    var st1 := st.(quant := st.quant[n := q]);
    assert DqtTables(st1, 0, more) == Got(st1, more);
    PassMarker(st, DQT, Two(length) + tail, st1, more);
  }

  lemma WideFits(q: QuantTbl)
    requires QuantOk(q)
    ensures forall i :: 0 <= i < |q| ==> q[i] < if Wide(q) then 0x1_0000 else 256
  {
  }

  // ----- DHT -----

  lemma {:induction false} SumIs(t: HuffTbl, k: nat)
    requires CountsFit(t) && k <= 16
    ensures Sum(CountBytes(t)[..k]) == FirstIdx(t, k + 1)
  {
    if k > 0 {
      assert CountBytes(t)[..k][..k - 1] == CountBytes(t)[..k - 1];
      SumIs(t, k - 1);
    }
  }

  lemma DhtRead(st: State, id: TableId, t: HuffTbl, more: seq<Byte>)
    requires StateOk(st) && IdOk(id) && CountsFit(t)
    ensures Reads(st, DhtBytes(id, t) + more) == Reads(st.(huff := st.huff[id := Received(t)]), more)
  {
    hide CountBytes, Two, Word, Reads, Sum, NumSymbols, TableFrom;
    var n, counts := NumSymbols(t), CountBytes(t);
    var tail := [IdByte(id)] + counts + t.huffval[..n] + more;
    assert DhtBytes(id, t) + more == [0xFF, DHT] + (Two(n + 2 + 1 + 16) + tail);
    TwoWord(n + 2 + 1 + 16, tail);
    SumAll(t);
    assert tail[1..17] == counts && tail[17..17 + n] == t.huffval[..n] && tail[17 + n..] == more;
    var st1 := st.(huff := st.huff[id := Received(t)]);
    assert DhtTables(st1, 0, more) == Got(st1, more);
    PassMarker(st, DHT, Two(n + 2 + 1 + 16) + tail, st1, more);
  }

  lemma SumAll(t: HuffTbl)
    requires CountsFit(t)
    ensures Sum(CountBytes(t)) == NumSymbols(t)
  {
    hide FirstIdx, Sum;
    assert CountBytes(t)[..16] == CountBytes(t);
    SumIs(t, 16);
  }

  // ----- DRI, SOF, SOS -----

  lemma DriRead(st: State, ri: nat, more: seq<Byte>)
    requires StateOk(st)
    ensures Reads(st, DriBytes(ri) + more) == Reads(st.(ri := ri % 0x1_0000), more)
  {
    hide Two, Word, Reads;
    assert DriBytes(ri) + more == [0xFF, DRI] + (Two(4) + (Two(ri) + more));
    TwoWord(4, Two(ri) + more);
    TwoWord(ri, more);
    assert (Two(4) + (Two(ri) + more))[4..] == more;
    PassMarker(st, DRI, Two(4) + (Two(ri) + more), st.(ri := ri % 0x1_0000), more);
  }

  lemma {:induction false} FrameCompsInvert(comps: seq<FrameComp>, more: seq<Byte>)
    requires forall i :: 0 <= i < |comps| ==> comps[i].h < 16 && comps[i].v < 16 && comps[i].quant < NUM_QUANT_TBLS
    ensures ReadFrameComps(|comps|, FrameCompBytes(comps) + more) == Some((ByteIds(comps), more))
  {
    if comps == [] {
      assert FrameCompBytes(comps) + more == more;
    } else {
      var c := comps[0];
      var first, rest := [c.id % 256, c.h * 16 + c.v, c.quant], FrameCompBytes(comps[1..]) + more;
      assert FrameCompBytes(comps) + more == first + rest && (first + rest)[3..] == rest;
      FrameCompsInvert(comps[1..], more);
      assert (c.h * 16 + c.v) / 16 == c.h && (c.h * 16 + c.v) % 16 == c.v;
      assert [c.(id := c.id % 256)] + ByteIds(comps[1..]) == ByteIds(comps);
    }
  }

  /** The state after the frame header. */
  function AtSof(st: State, f: Frame): State {
    st.(arith := false, frame := Transmitted(f), sawSof := true,
        dcTbl := NoTables(|f.comps|), acTbl := NoTables(|f.comps|))
  }

  /** What follows the marker code. */
  function SofParams(f: Frame): seq<Byte>
    requires FrameOk(f)
  {
    var n := |f.comps|;
    Two(3 * n + 2 + 5 + 1) + ([f.precision] + (Two(f.height) + (Two(f.width) + ([n] + FrameCompBytes(f.comps)))))
  }

  lemma SofParsed(st: State, f: Frame, more: seq<Byte>)
    requires !st.sawSof && FrameOk(f)
    ensures GetSof(st, f.progressive, false, SofParams(f) + more) == Got(AtSof(st, f), more)
  {
    hide Two, Word, ReadFrameComps, FrameCompBytes, ByteIds;
    var n := |f.comps|;
    var comps := FrameCompBytes(f.comps) + more;
    var width := Two(f.width) + ([n] + comps);
    var height := Two(f.height) + width;
    var bytes := SofParams(f) + more;
    assert bytes == Two(3 * n + 2 + 5 + 1) + ([f.precision] + height);
    TwoWord(3 * n + 2 + 5 + 1, [f.precision] + height);
    TwoWord(f.height, width);
    TwoWord(f.width, [n] + comps);
    assert bytes[3..] == height && bytes[5..] == width && bytes[8..] == comps && bytes[7] == n && bytes[2] == f.precision;
    FrameCompsInvert(f.comps, more);
  }

  lemma SofRead(st: State, f: Frame, code: Byte, more: seq<Byte>)
    requires StateOk(st) && !st.sawSof && FrameOk(f)
    requires if f.progressive then code == SOF2 else code == SOF0 || code == SOF1
    ensures StateOk(AtSof(st, f)) && Reads(st, SofBytes(code, f) + more) == Reads(AtSof(st, f), more)
  {
    hide Two, Reads, GetSof, FrameCompBytes, Transmitted;
    assert SofBytes(code, f) + more == [0xFF, code] + (SofParams(f) + more);
    SofParsed(st, f, more);
    PassMarker(st, code, SofParams(f) + more, AtSof(st, f), more);
  }

  /** The component that a decoder takes for component i: the first with its id. */
  function Meant(f: Frame, i: nat): (r: nat)
    requires i < |f.comps|
    ensures r <= i && f.comps[r].id % 256 == f.comps[i].id % 256
    ensures forall j :: 0 <= j < r ==> f.comps[j].id % 256 != f.comps[i].id % 256
  {
    var g := Transmitted(f);
    assert g.comps[i].id == f.comps[i].id % 256;
    var r := FindComp(g.comps, f.comps[i].id % 256, 0);
    assert forall j :: 0 <= j < |g.comps| ==> g.comps[j].id == f.comps[j].id % 256;
    r.value
  }

  /** What the decoder makes of a list of components. */
  function Assigned(st: State, f: Frame, s: Scanning, comps: seq<CompInfo>): (r: State)
    requires |st.dcTbl| == |st.acTbl| == |f.comps|
    requires forall i :: 0 <= i < |comps| ==> comps[i].index < |f.comps|
    ensures |r.dcTbl| == |r.acTbl| == |f.comps|
    decreases comps
  {
    if comps == [] then st
    else
      var c := UsedNumbers(f.progressive, s, comps[0]);
      var ci := Meant(f, c.index);
      Assigned(st.(cur := st.cur + [ci], dcTbl := st.dcTbl[ci := c.dcTbl], acTbl := st.acTbl[ci := c.acTbl]), f, s, comps[1..])
  }

  lemma {:induction false} SosCompsRead(st: State, f: Frame, s: Scanning, comps: seq<CompInfo>, more: seq<Byte>)
    requires |st.dcTbl| == |st.acTbl| == |f.comps| && st.frame == Transmitted(f)
    requires forall i :: 0 <= i < |comps| ==>
      comps[i].index < |f.comps| && comps[i].dcTbl < NUM_HUFF_TBLS && comps[i].acTbl < NUM_HUFF_TBLS
    ensures SosComps(st, |comps|, ScanCompBytes(f, s, comps) + more) == Got(Assigned(st, f, s, comps), more)
    decreases comps
  {
    hide Transmitted, FindComp;
    if comps == [] {
      assert ScanCompBytes(f, s, comps) + more == more;
    } else {
      var c := UsedNumbers(f.progressive, s, comps[0]);
      var ci := Meant(f, c.index);
      var first, rest := [f.comps[c.index].id % 256, c.dcTbl * 16 + c.acTbl], ScanCompBytes(f, s, comps[1..]) + more;
      assert ScanCompBytes(f, s, comps) + more == first + rest && (first + rest)[2..] == rest;
      FoundComp(f, c.index);
      assert (c.dcTbl * 16 + c.acTbl) / 16 == c.dcTbl && (c.dcTbl * 16 + c.acTbl) % 16 == c.acTbl;
      SosCompsRead(st.(cur := st.cur + [ci], dcTbl := st.dcTbl[ci := c.dcTbl], acTbl := st.acTbl[ci := c.acTbl]),
                   f, s, comps[1..], more);
    }
  }

  lemma FoundComp(f: Frame, i: nat)
    requires i < |f.comps|
    ensures FindComp(Transmitted(f).comps, f.comps[i].id % 256, 0) == Some(Meant(f, i))
  {
    var g := Transmitted(f);
    assert g.comps[i].id == f.comps[i].id % 256;
  }

  /** The state at SOS. */
  function AtSos(st: State, f: Frame, s: Scanning): State
    requires |st.dcTbl| == |st.acTbl| == |f.comps| && ScanningOk(f, s)
  {
    Assigned(st.(cur := []), f, s, s.comps).(Ss := s.Ss, Se := s.Se, Ah := s.Ah, Al := s.Al)
  }

  lemma SosRead(st: State, f: Frame, s: Scanning, more: seq<Byte>)
    requires StateOk(st) && st.sawSof && st.frame == Transmitted(f) && ScanningOk(f, s)
    ensures Reads(st, SosBytes(f, s) + more) == ReachedSos(AtSos(st, f, s), more)
  {
    hide Two, Word, Reads, SosComps, ScanCompBytes, Transmitted, Assigned;
    var n := |s.comps|;
    var last := [s.Ss, s.Se, s.Ah * 16 + s.Al];
    var comps := ScanCompBytes(f, s, s.comps) + (last + more);
    var bytes := Two(2 * n + 2 + 1 + 3) + ([n] + comps);
    assert SosBytes(f, s) + more == [0xFF, SOS] + bytes;
    TwoWord(2 * n + 2 + 1 + 3, [n] + comps);
    assert bytes[2] == n && bytes[3..] == comps;
    SosCompsRead(st.(cur := []), f, s, s.comps, last + more);
    assert (last + more)[3..] == more;
    assert (s.Ah * 16 + s.Al) / 16 == s.Ah && (s.Ah * 16 + s.Al) % 16 == s.Al;
    PassMarker(st, SOS, bytes, AtSos(st, f, s), more);
  }

  // ----- headers -----

  /** The decoder after the DQT, if there is one. */
  ghost function WithQuant(w: Sender, st: State, n: nat): State
    requires n in w.quant
  {
    if w.quant[n].sent then st else st.(quant := st.quant[n := w.quant[n].tbl])
  }

  ghost function WithQuants(w: Sender, st: State, comps: seq<FrameComp>, k: nat): State
    requires SenderOk(w) && k <= |comps| && forall i :: 0 <= i < k ==> comps[i].quant in w.quant
  {
    if k == 0 then st
    else WithQuant(SendQuants(w, comps, k - 1).0, WithQuants(w, st, comps, k - 1), comps[k - 1].quant)
  }

  ghost function WithHuff(w: Sender, st: State, id: TableId): State
    requires SenderOk(w) && id in w.huff
  {
    if w.huff[id].sent then st else st.(huff := st.huff[id := Received(w.huff[id].tbl)])
  }

  ghost function WithHuffs(w: Sender, st: State, ids: seq<TableId>, k: nat): State
    requires SenderOk(w) && AllIn(w, ids, k)
  {
    if k == 0 then st else WithHuff(SendHuffs(w, ids, k - 1).0, WithHuffs(w, st, ids, k - 1), ids[k - 1])
  }

  lemma QuantRead(w: Sender, st: State, n: nat, more: seq<Byte>)
    requires SenderOk(w) && n in w.quant && StateOk(st) && InStep(w, st)
    ensures var (w1, bytes) := SendQuant(w, n);
            var st1 := WithQuant(w, st, n);
            StateOk(st1) && InStep(w1, st1) && Reads(st, bytes + more) == Reads(st1, more) && st1 == st.(quant := st1.quant)
  {
    hide Reads, Received, DqtBytes;
    if w.quant[n].sent {
      assert [] + more == more;
    } else {
      DqtRead(st, n, w.quant[n].tbl, more);
    }
  }

  lemma HuffRead(w: Sender, st: State, id: TableId, more: seq<Byte>)
    requires SenderOk(w) && id in w.huff && StateOk(st) && InStep(w, st)
    ensures var (w1, bytes) := SendHuff(w, id);
            var st1 := WithHuff(w, st, id);
            StateOk(st1) && InStep(w1, st1) && Reads(st, bytes + more) == Reads(st1, more) && st1 == st.(huff := st1.huff)
  {
    hide Reads, Received, DhtBytes;
    if w.huff[id].sent {
      assert [] + more == more;
    } else {
      DhtRead(st, id, w.huff[id].tbl, more);
    }
  }

  lemma {:induction false} QuantsRead(w: Sender, st: State, comps: seq<FrameComp>, k: nat, more: seq<Byte>)
    requires SenderOk(w) && k <= |comps| && forall i :: 0 <= i < k ==> comps[i].quant in w.quant
    requires StateOk(st) && InStep(w, st)
    ensures var (w1, bytes) := SendQuants(w, comps, k);
            var st1 := WithQuants(w, st, comps, k);
            StateOk(st1) && InStep(w1, st1) && Reads(st, bytes + more) == Reads(st1, more) && st1 == st.(quant := st1.quant)
  {
    hide Reads, InStep, SendQuant, WithQuant, SenderOk, SameTables;
    if k == 0 {
      assert [] + more == more;
    } else {
      var (w1, bytes) := SendQuants(w, comps, k - 1);
      var st1 := WithQuants(w, st, comps, k - 1);
      var n := comps[k - 1].quant;
      QuantsRead(w, st, comps, k - 1, SendQuant(w1, n).1 + more);
      QuantRead(w1, st1, n, more);
      SeqAssoc(bytes, SendQuant(w1, n).1, more);
    }
  }

  lemma {:induction false} HuffsRead(w: Sender, st: State, ids: seq<TableId>, k: nat, more: seq<Byte>)
    requires SenderOk(w) && AllIn(w, ids, k)
    requires StateOk(st) && InStep(w, st)
    ensures var (w1, bytes) := SendHuffs(w, ids, k);
            var st1 := WithHuffs(w, st, ids, k);
            StateOk(st1) && InStep(w1, st1) && Reads(st, bytes + more) == Reads(st1, more) && st1 == st.(huff := st1.huff)
  {
    hide Reads, InStep, SendHuff, WithHuff, SenderOk, SameTables;
    if k == 0 {
      assert [] + more == more;
    } else {
      var (w1, bytes) := SendHuffs(w, ids, k - 1);
      var st1 := WithHuffs(w, st, ids, k - 1);
      HuffsRead(w, st, ids, k - 1, SendHuff(w1, ids[k - 1]).1 + more);
      HuffRead(w1, st1, ids[k - 1], more);
      SeqAssoc(bytes, SendHuff(w1, ids[k - 1]).1, more);
    }
  }

  /** The decoder has these tables of the encoder. */
  ghost predicate HasTables(w: Sender, ids: seq<TableId>, st: State) {
    forall i :: 0 <= i < |ids| ==>
      ids[i] in w.huff && ids[i] in st.huff && CountsFit(w.huff[ids[i]].tbl) &&
      st.huff[ids[i]] == Received(w.huff[ids[i]].tbl)
  }

  /** What has been sent is there, as it is in the encoder. */
  lemma QuantsThere(w: Sender, w1: Sender, st: State, comps: seq<FrameComp>)
    requires SenderOk(w) && SenderOk(w1) && SameTables(w, w1) && InStep(w1, st)
    requires forall i :: 0 <= i < |comps| ==> comps[i].quant in w.quant && w1.quant[comps[i].quant].sent
    ensures forall i :: 0 <= i < |comps| ==>
      comps[i].quant in st.quant && st.quant[comps[i].quant] == w.quant[comps[i].quant].tbl
  {
    hide SenderOk;
  }

  lemma HuffsThere(w: Sender, w1: Sender, st: State, ids: seq<TableId>)
    requires SenderOk(w) && SenderOk(w1) && SameTables(w, w1) && InStep(w1, st) && AllIn(w, ids, |ids|)
    requires forall i :: 0 <= i < |ids| ==> w1.huff[ids[i]].sent
    ensures HasTables(w, ids, st)
  {
    hide Received, CountsFit;
  }

  /** The decoder after the frame header. */
  ghost function AfterFrame(w: Sender, st: State, f: Frame): State
    requires FrameReady(w, f)
  {
    AtSof(WithQuants(w, st, f.comps, |f.comps|), f)
  }

  /** A frame header is understood: the decoder has the frame, and the quantization table
      of every component. */
  lemma FrameHeaderRead(w: Sender, st: State, f: Frame, code: Byte, more: seq<Byte>)
    requires FrameReady(w, f) && StateOk(st) && !st.sawSof && InStep(w, st)
    requires if f.progressive then code == SOF2 else code == SOF0 || code == SOF1
    ensures var (w1, bytes) := FrameHeader(w, f, code);
            var st1 := AfterFrame(w, st, f);
            Reads(st, bytes + more) == Reads(st1, more) && StateOk(st1) && SenderOk(w1) && SameTables(w, w1) && InStep(w1, st1)
    ensures var st1 := AfterFrame(w, st, f);
            st1.sawSof && st1.frame == Transmitted(f) && st1.huff == st.huff &&
            forall i :: 0 <= i < |f.comps| ==>
              f.comps[i].quant in st1.quant && st1.quant[f.comps[i].quant] == w.quant[f.comps[i].quant].tbl
  {
    hide Reads, SofBytes, Transmitted, SendQuants, WithQuants, SameTables, InStep, SenderOk;
    QuantsSent(w, f.comps, |f.comps|);
    var (w1, bytes) := SendQuants(w, f.comps, |f.comps|);
    var st1 := WithQuants(w, st, f.comps, |f.comps|);
    QuantsRead(w, st, f.comps, |f.comps|, SofBytes(code, f) + more);
    SofRead(st1, f, code, more);
    QuantsThere(w, w1, st1, f.comps);
    StillInStep(w1, st1, AtSof(st1, f));
    SeqAssoc(bytes, SofBytes(code, f), more);
  }

  /** The frame and the scan do not matter. */
  lemma StillInStep(w: Sender, st: State, st1: State)
    requires SenderOk(w) && InStep(w, st) && st1.ri == st.ri && st1.quant == st.quant && st1.huff == st.huff
    ensures InStep(w, st1)
  {
    hide Received, CountsFit;
  }

  lemma RestartInStep(w: Sender, w1: Sender, st: State, st1: State, ri: nat)
    requires SenderOk(w) && SenderOk(w1) && SameTables(w, w1) && InStep(w, st) && InStep(w1, st1) && st1.ri == st.ri
    ensures SenderOk(w1.(ri := ri)) && SameTables(w, w1.(ri := ri))
    ensures InStep(w1.(ri := ri), if ri != w.ri then st1.(ri := ri % 0x1_0000) else st1)
    ensures (if ri != w.ri then ri % 0x1_0000 else st1.ri) == ri % 0x1_0000
  {
    hide Received, CountsFit;
  }

  /** Just before SOS. */
  ghost function BeforeSos(w: Sender, st: State, f: Frame, s: Scanning, ri: nat): State
    requires ScanReady(w, f, s)
  {
    var ids := TableList(f, s);
    var st1 := WithHuffs(w, st, ids, |ids|);
    if ri != w.ri then st1.(ri := ri % 0x1_0000) else st1
  }

  /** The decoder at the start of the scan's data. */
  ghost function AfterScanHeader(w: Sender, st: State, f: Frame, s: Scanning, ri: nat): State
    requires ScanReady(w, f, s) && |st.dcTbl| == |st.acTbl| == |f.comps|
  {
    HuffsKeep(w, st, TableList(f, s), |TableList(f, s)|);
    AtSos(BeforeSos(w, st, f, s, ri), f, s)
  }

  lemma {:induction false} HuffsKeep(w: Sender, st: State, ids: seq<TableId>, k: nat)
    requires SenderOk(w) && AllIn(w, ids, k)
    ensures var st1 := WithHuffs(w, st, ids, k); st1 == st.(huff := st1.huff)
  {
    hide SenderOk, Received;
    if k > 0 {
      HuffsKeep(w, st, ids, k - 1);
    }
  }

  lemma {:induction false} AssignedKeeps(st: State, f: Frame, s: Scanning, comps: seq<CompInfo>)
    requires |st.dcTbl| == |st.acTbl| == |f.comps|
    requires forall i :: 0 <= i < |comps| ==> comps[i].index < |f.comps|
    ensures var r := Assigned(st, f, s, comps); r == st.(cur := r.cur, dcTbl := r.dcTbl, acTbl := r.acTbl)
    ensures var r := Assigned(st, f, s, comps);
            |r.cur| == |st.cur| + |comps| && (forall i :: 0 <= i < |st.cur| ==> r.cur[i] == st.cur[i]) &&
            forall i :: 0 <= i < |comps| ==> r.cur[|st.cur| + i] == Meant(f, comps[i].index)
    decreases comps
  {
    hide Meant;
    if comps != [] {
      var c := UsedNumbers(f.progressive, s, comps[0]);
      var ci := Meant(f, c.index);
      var st1 := st.(cur := st.cur + [ci], dcTbl := st.dcTbl[ci := c.dcTbl], acTbl := st.acTbl[ci := c.acTbl]);
      AssignedKeeps(st1, f, s, comps[1..]);
      var r := Assigned(st, f, s, comps);
      forall i | 0 <= i < |comps| ensures r.cur[|st.cur| + i] == Meant(f, comps[i].index) {
        if i > 0 {
          assert comps[1..][i - 1] == comps[i] && r.cur[|st1.cur| + (i - 1)] == r.cur[|st.cur| + i];
        }
      }
    }
  }

  /** The tables and the restart interval. */
  lemma TablesRead(w: Sender, st: State, f: Frame, s: Scanning, ri: nat, more: seq<Byte>)
    requires ScanReady(w, f, s) && StateOk(st) && InStep(w, st)
    ensures var ids, st1 := TableList(f, s), BeforeSos(w, st, f, s, ri);
            var (w1, bytes) := SendHuffs(w, ids, |ids|);
            StateOk(st1) && Reads(st, bytes + ((if ri != w.ri then DriBytes(ri) else []) + more)) == Reads(st1, more) &&
            SenderOk(w1.(ri := ri)) && SameTables(w, w1.(ri := ri)) && InStep(w1.(ri := ri), st1) &&
            HasTables(w, ids, st1) && st1.ri == ri % 0x1_0000 && st1 == st.(huff := st1.huff, ri := st1.ri)
  {
    var ids := TableList(f, s);
    hide Reads, DriBytes, TableList, AllIn, SendHuffs, WithHuffs, SameTables, InStep, SenderOk, HasTables;
    HuffsSent(w, ids, |ids|);
    var (w1, bytes) := SendHuffs(w, ids, |ids|);
    var st1 := WithHuffs(w, st, ids, |ids|);
    HuffsRead(w, st, ids, |ids|, (if ri != w.ri then DriBytes(ri) else []) + more);
    if ri != w.ri {
      DriRead(st1, ri, more);
    } else {
      assert [] + more == more;
    }
    HuffsThere(w, w1, st1, ids);
    RestartInStep(w, w1, st, st1, ri);
    StillThere(w, ids, st1, BeforeSos(w, st, f, s, ri));
  }

  lemma StillThere(w: Sender, ids: seq<TableId>, st: State, st1: State)
    requires HasTables(w, ids, st) && st1.huff == st.huff
    ensures HasTables(w, ids, st1)
  {
  }

  /** A scan header is understood. The decoder has all tables that the scan is coded
      with, its parameters, and the restart interval as far as 16 bits can hold it; and
      it stays in step. It takes each component for the first with the same id. */
  lemma ScanHeaderRead(w: Sender, st: State, f: Frame, s: Scanning, ri: nat, more: seq<Byte>)
    requires ScanReady(w, f, s) && StateOk(st) && st.sawSof && st.frame == Transmitted(f) && InStep(w, st)
    ensures var (w1, bytes) := ScanHeader(w, f, s, ri);
            var st1 := AfterScanHeader(w, st, f, s, ri);
            Reads(st, bytes + more) == ReachedSos(st1, more) &&
            StateOk(st1) && SenderOk(w1) && SameTables(w, w1) && InStep(w1, st1)
    ensures var st1 := AfterScanHeader(w, st, f, s, ri);
            st1.sawSof && st1.frame == st.frame && st1.quant == st.quant &&
            st1.ri == ri % 0x1_0000 && st1.Ss == s.Ss && st1.Se == s.Se && st1.Ah == s.Ah && st1.Al == s.Al
    ensures var st1 := AfterScanHeader(w, st, f, s, ri);
            |st1.cur| == |s.comps| && (forall i :: 0 <= i < |s.comps| ==> st1.cur[i] == Meant(f, s.comps[i].index))
    ensures HasTables(w, TableList(f, s), AfterScanHeader(w, st, f, s, ri))
  {
    hide Reads, Transmitted, AllIn, BeforeSos, SameTables, InStep, SenderOk, HasTables, SosBytes, DriBytes, SendHuffs, AtSos;
    var st1 := BeforeSos(w, st, f, s, ri);
    TablesRead(w, st, f, s, ri, SosBytes(f, s) + more);
    SosRead(st1, f, s, more);
    SosKeeps(st1, f, s);
    StillInStep(ScanHeader(w, f, s, ri).0, st1, AtSos(st1, f, s));
    StillThere(w, TableList(f, s), st1, AtSos(st1, f, s));
    Regroup(SendHuffs(w, TableList(f, s), |TableList(f, s)|).1, if ri != w.ri then DriBytes(ri) else [], SosBytes(f, s), more);
  }

  lemma Regroup(a: seq<Byte>, b: seq<Byte>, c: seq<Byte>, d: seq<Byte>)
    ensures a + b + c + d == a + (b + (c + d))
  {
  }

  lemma SosKeeps(st: State, f: Frame, s: Scanning)
    requires |st.dcTbl| == |st.acTbl| == |f.comps| && ScanningOk(f, s)
    ensures var st1 := AtSos(st, f, s);
            st1 == st.(cur := st1.cur, dcTbl := st1.dcTbl, acTbl := st1.acTbl, Ss := s.Ss, Se := s.Se, Ah := s.Ah, Al := s.Al) &&
            |st1.dcTbl| == |st1.acTbl| == |f.comps| && |st1.cur| == |s.comps| &&
            forall i :: 0 <= i < |s.comps| ==> st1.cur[i] == Meant(f, s.comps[i].index)
  {
    hide Assigned, Meant;
    AssignedKeeps(st.(cur := []), f, s, s.comps);
  }

  // ----- component ids -----

  /** The ids differ as bytes. */
  ghost predicate IdsDistinct(f: Frame) {
    forall i, j :: 0 <= i < j < |f.comps| ==> f.comps[i].id % 256 != f.comps[j].id % 256
  }

  /** Every scan is taken to be one of the right components exactly if no two
      components have the same id, as far as a byte can tell. */
  lemma RightComponents(f: Frame)
    ensures (forall i :: 0 <= i < |f.comps| ==> Meant(f, i) == i) <==> IdsDistinct(f)
  {
    if forall i :: 0 <= i < |f.comps| ==> Meant(f, i) == i {
      forall i, j | 0 <= i < j < |f.comps| ensures f.comps[i].id % 256 != f.comps[j].id % 256 {
        assert Meant(f, j) == j;
      }
    }
  }

  /** Two components with ids 1 and 257: the second is taken for the first. */
  lemma SameIds()
    ensures var c := FrameComp(1, 1, 1, 0);
            var f := Frame(true, 8, 1, 1, [c, c.(id := 257)]);
            FrameOk(f) && Meant(f, 1) == 0
  {
  }

  /** The table numbers of the scan's components are as sent. */
  lemma {:induction false} NumbersAssigned(st: State, f: Frame, s: Scanning, comps: seq<CompInfo>)
    requires |st.dcTbl| == |st.acTbl| == |f.comps| && IdsDistinct(f)
    requires forall i :: 0 <= i < |comps| ==> comps[i].index < |f.comps|
    requires forall i, j :: 0 <= i < j < |comps| ==> comps[i].index != comps[j].index
    ensures var r := Assigned(st, f, s, comps);
            forall i :: 0 <= i < |comps| ==> NumbersAre(r, comps[i].index, UsedNumbers(f.progressive, s, comps[i]))
    ensures var r := Assigned(st, f, s, comps);
            forall ci :: 0 <= ci < |f.comps| && (forall i :: 0 <= i < |comps| ==> comps[i].index != ci) ==>
              r.dcTbl[ci] == st.dcTbl[ci] && r.acTbl[ci] == st.acTbl[ci]
    decreases comps
  {
    RightComponents(f);
    hide Meant, IdsDistinct;
    if comps != [] {
      var c := UsedNumbers(f.progressive, s, comps[0]);
      assert c.index == comps[0].index;
      var st1 := st.(cur := st.cur + [c.index], dcTbl := st.dcTbl[c.index := c.dcTbl], acTbl := st.acTbl[c.index := c.acTbl]);
      NumbersAssigned(st1, f, s, comps[1..]);
      assert forall i :: 0 < i < |comps| ==> comps[i] == comps[1..][i - 1];
    }
  }

  ghost predicate NumbersAre(st: State, ci: nat, c: CompInfo) {
    ci < |st.dcTbl| && ci < |st.acTbl| && st.dcTbl[ci] == c.dcTbl && st.acTbl[ci] == c.acTbl
  }

  // ----- files of many scans -----

  /** A scan to be sent, and the tables generated for it. */
  datatype Job = Job(install: map<TableId, HuffTbl>, ri: nat, s: Scanning)

  /** New tables take the place of old ones and have not been sent. */
  function Install(w: Sender, tables: map<TableId, HuffTbl>): Sender {
    w.(huff := map id | id in w.huff.Keys + tables.Keys :: if id in tables then Entry(tables[id], false) else w.huff[id])
  }

  ghost predicate JobReady(w: Sender, f: Frame, j: Job) {
    (forall id :: id in j.install ==> IdOk(id) && CountsFit(j.install[id])) && ScanReady(Install(w, j.install), f, j.s)
  }

  lemma InstallKeeps(w: Sender, tables: map<TableId, HuffTbl>, st: State)
    requires SenderOk(w) && InStep(w, st) && forall id :: id in tables ==> IdOk(id) && CountsFit(tables[id])
    ensures SenderOk(Install(w, tables)) && InStep(Install(w, tables), st)
  {
    hide CountsFit, Received;
  }

  /** The encoder's tables when the header of job k is written; the first k headers have
      been written. */
  ghost function Sending(w: Sender, f: Frame, jobs: seq<Job>, k: nat): (r: Option<Sender>)
    requires k <= |jobs|
  {
    if k == 0 then Some(w)
    else
      match Sending(w, f, jobs, k - 1)
      case None => None
      case Some(w1) =>
        if JobReady(w1, f, jobs[k - 1]) then Some(ScanHeader(Install(w1, jobs[k - 1].install), f, jobs[k - 1].s, jobs[k - 1].ri).0)
        else None
  }

  /** The decoder after the same headers. What it does with the data of a scan does not
      matter. */
  ghost function Receiving(w: Sender, st: State, f: Frame, jobs: seq<Job>, k: nat): (r: Option<State>)
    requires k <= |jobs| && StateOk(st)
    ensures r.Some? ==> StateOk(r.value)
  {
    if k == 0 then Some(st)
    else
      match (Sending(w, f, jobs, k - 1), Receiving(w, st, f, jobs, k - 1))
      case (Some(w1), Some(st1)) =>
        if JobReady(w1, f, jobs[k - 1]) then
          var header := ScanHeader(Install(w1, jobs[k - 1].install), f, jobs[k - 1].s, jobs[k - 1].ri).1;
          var r := Reads(st1, header);
          if r.ReachedSos? && StateOk(r.st) then Some(r.st) else None
        else None
      case _ => None
  }

  /** Before and after every header of a file, the decoder is in step. */
  lemma {:induction false} AllInStep(w: Sender, st: State, f: Frame, jobs: seq<Job>, k: nat)
    requires k <= |jobs| && Sending(w, f, jobs, k).Some?
    requires SenderOk(w) && StateOk(st) && st.sawSof && st.frame == Transmitted(f) && InStep(w, st)
    ensures var r := Receiving(w, st, f, jobs, k);
            r.Some? && SenderOk(Sending(w, f, jobs, k).value) && InStep(Sending(w, f, jobs, k).value, r.value) &&
            r.value.sawSof && r.value.frame == st.frame
  {
    hide Reads, ScanHeader, AfterScanHeader, Install, InStep, SenderOk, ScanReady, Transmitted;
    if k > 0 {
      AllInStep(w, st, f, jobs, k - 1);
      var (w1, st1, j) := (Sending(w, f, jobs, k - 1).value, Receiving(w, st, f, jobs, k - 1).value, jobs[k - 1]);
      InstallKeeps(w1, j.install, st1);
      var w2 := Install(w1, j.install);
      ScanHeaderRead(w2, st1, f, j.s, j.ri, []);
      assert ScanHeader(w2, f, j.s, j.ri).1 + [] == ScanHeader(w2, f, j.s, j.ri).1;
    }
  }

  /** In a file of any number of scans, the decoder has at each of them all tables that
      the scan is coded with, and its parameters. */
  lemma EveryScanUnderstood(w: Sender, st: State, f: Frame, jobs: seq<Job>, k: nat)
    requires k < |jobs| && Sending(w, f, jobs, k + 1).Some? && IdsDistinct(f)
    requires SenderOk(w) && StateOk(st) && st.sawSof && st.frame == Transmitted(f) && InStep(w, st)
    requires forall i, j :: 0 <= i < j < |jobs[k].s.comps| ==> jobs[k].s.comps[i].index != jobs[k].s.comps[j].index
    ensures Receiving(w, st, f, jobs, k + 1).Some?
    ensures var r, s := Receiving(w, st, f, jobs, k + 1).value, jobs[k].s;
            HasTables(Install(Sending(w, f, jobs, k).value, jobs[k].install), TableList(f, s), r) &&
            r.ri == jobs[k].ri % 0x1_0000 && r.Ss == s.Ss && r.Se == s.Se && r.Ah == s.Ah && r.Al == s.Al &&
            |r.cur| == |s.comps| &&
            forall i :: 0 <= i < |s.comps| ==>
              r.cur[i] == s.comps[i].index && NumbersAre(r, r.cur[i], UsedNumbers(f.progressive, s, s.comps[i]))
  {
    hide Reads, Assigned, ScanHeader, Install, InStep, SenderOk, Transmitted, HasTables, SendHuffs, WithHuffs, Meant, IdsDistinct;
    AllInStep(w, st, f, jobs, k);
    var (w1, st1, j) := (Sending(w, f, jobs, k).value, Receiving(w, st, f, jobs, k).value, jobs[k]);
    InstallKeeps(w1, j.install, st1);
    var w2 := Install(w1, j.install);
    ScanHeaderRead(w2, st1, f, j.s, j.ri, []);
    assert ScanHeader(w2, f, j.s, j.ri).1 + [] == ScanHeader(w2, f, j.s, j.ri).1;
    RightComponents(f);
    NumbersRead(w2, st1, f, j.s, j.ri);
  }

  lemma NumbersRead(w: Sender, st: State, f: Frame, s: Scanning, ri: nat)
    requires ScanReady(w, f, s) && StateOk(st) && st.sawSof && st.frame == Transmitted(f) && IdsDistinct(f)
    requires forall i, j :: 0 <= i < j < |s.comps| ==> s.comps[i].index != s.comps[j].index
    ensures var st1 := AfterScanHeader(w, st, f, s, ri);
            forall i :: 0 <= i < |s.comps| ==> NumbersAre(st1, s.comps[i].index, UsedNumbers(f.progressive, s, s.comps[i]))
  {
    hide Assigned, SendHuffs, WithHuffs, Transmitted, IdsDistinct, SenderOk, UsedNumbers;
    HuffsKeep(w, st, TableList(f, s), |TableList(f, s)|);
    NumbersAssigned(BeforeSos(w, st, f, s, ri).(cur := []), f, s, s.comps);
  }

  /** A restart interval arrives exactly if 16 bits can hold it. */
  lemma LongInterval(w: Sender, st: State, f: Frame, s: Scanning, ri: nat, more: seq<Byte>)
    requires ScanReady(w, f, s) && StateOk(st) && st.sawSof && st.frame == Transmitted(f) && InStep(w, st)
    ensures Reads(st, ScanHeader(w, f, s, ri).1 + more).ReachedSos?
    ensures Reads(st, ScanHeader(w, f, s, ri).1 + more).st.ri == ri <==> ri < 0x1_0000
  {
    hide Reads, ScanHeader, AfterScanHeader, InStep, Transmitted, HasTables;
    ScanHeaderRead(w, st, f, s, ri, more);
  }

  /** An interval of 65536 MCUs, which arrives as none. */
  lemma IntervalLost()
    ensures var f := Frame(true, 8, 1, 1, [FrameComp(1, 1, 1, 0)]);
            var st := State(true, true, false, f, map[], map[], 0, [0], [0], [], 0, 0, 0, 0);
            var w, s := Sender(map[], map[], 0), Scanning([CompInfo(0, 0, 0)], 0, 0, 1, 0);
            ScanReady(w, f, s) && InStep(w, st) && Reads(st, ScanHeader(w, f, s, 0x1_0000).1 + []).ReachedSos? &&
            Reads(st, ScanHeader(w, f, s, 0x1_0000).1 + []).st.ri == 0
  {
    hide Reads, ScanHeader, AfterScanHeader;
    var f := Frame(true, 8, 1, 1, [FrameComp(1, 1, 1, 0)]);
    var st := State(true, true, false, f, map[], map[], 0, [0], [0], [], 0, 0, 0, 0);
    var w, s := Sender(map[], map[], 0), Scanning([CompInfo(0, 0, 0)], 0, 0, 1, 0);
    assert TablesOf(true, s, s.comps[0]) == [] && ScanTableList(true, s, 0) == [];
    assert Transmitted(f).comps == f.comps;
    ScanHeaderRead(w, st, f, s, 0x1_0000, []);
  }
}
