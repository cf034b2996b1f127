/** The marker writer of jcmarker.c. */
module MarkerWriter {
  import opened Wrappers
  import opened Tokens
  import opened HuffmanCode
  import opened ScanCoding
  import opened Markers
  import opened HeaderSync
  import opened SentTables

  datatype WriteError = NoQuantTable | NoHuffTable | ImageTooBig | BadMarkerLength

  /** What the rest of the encoder has checked about a frame. */
  predicate FrameShaped(f: Frame) {
    f.precision < 256 && 0 < f.height && 0 < f.width && 0 < |f.comps| < 256 && CompsShaped(f.comps)
  }

  /** Baseline files have two tables of each kind at most, and 8-bit quantization tables. */
  ghost predicate Baseline(w: Sender, f: Frame, tables: seq<CompInfo>)
    requires |tables| == |f.comps| && forall i :: 0 <= i < |f.comps| ==> f.comps[i].quant in w.quant
  {
    !f.progressive && f.precision == 8 && NoneWide(w, f.comps, |f.comps|) &&
    forall i :: 0 <= i < |f.comps| ==> tables[i].dcTbl <= 1 && tables[i].acTbl <= 1
  }

  /** The first n components have 8-bit quantization tables. */
  ghost predicate NoneWide(w: Sender, comps: seq<FrameComp>, n: nat)
    requires n <= |comps| && forall i :: 0 <= i < n ==> comps[i].quant in w.quant
  {
    forall i :: 0 <= i < n ==> !Wide(w.quant[comps[i].quant].tbl)
  }

  lemma WideNext(w: Sender, comps: seq<FrameComp>, n: nat)
    requires n < |comps| && forall i :: 0 <= i < n ==> comps[i].quant in w.quant
    ensures comps[n].quant in w.quant ==>
      (NoneWide(w, comps, n + 1) <==> NoneWide(w, comps, n) && !Wide(w.quant[comps[n].quant].tbl))
  {
    hide Wide;
  }

  predicate CompsShaped(comps: seq<FrameComp>) {
    forall i :: 0 <= i < |comps| ==> comps[i].h < 16 && comps[i].v < 16 && comps[i].quant < NUM_QUANT_TBLS
  }

  /** The next table in turn. */
  lemma QuantNext(w: Sender, comps: seq<FrameComp>, k: nat)
    requires SenderOk(w) && k < |comps| && forall i :: 0 <= i < k ==> comps[i].quant in w.quant
    ensures var (w1, bytes) := SendQuants(w, comps, k);
            var n := comps[k].quant;
            (n in w1.quant <==> n in w.quant) &&
            (n in w.quant ==>
              w1.quant[n].tbl == w.quant[n].tbl && SendQuants(w, comps, k + 1).0 == SendQuant(w1, n).0 &&
              SendQuants(w, comps, k + 1).1 == bytes + SendQuant(w1, n).1)
  {
    QuantsSent(w, comps, k);
    hide SenderOk, SendQuant;
  }

  lemma NextQuant(q: seq<nat>, wide: bool, i: nat)
    requires i < |q|
    ensures QuantBytes(q[i..], wide) == (if wide then Two(q[i]) else [q[i] % 256]) + QuantBytes(q[i + 1..], wide)
  {
    assert q[i..][0] == q[i] && q[i..][1..] == q[i + 1..];
  }

  /** 1 if some entry does not fit 8 bits */
  method Precision(q: QuantTbl) returns (prec: nat)
    ensures prec == if Wide(q) then 1 else 0
  {
    prec := 0;
    for i := 0 to |q|
      invariant prec <= 1 && (prec == 0 <==> forall j :: 0 <= j < i ==> q[j] <= 255)
    {
      if q[i] > 255 {
        prec := 1;
      }
    }
  }

  lemma FirstSymbol(t: HuffTbl)
    requires Shaped(t)
    ensures FirstIdx(t, 1) == 0
  {
  }

  lemma NextSymbol(t: HuffTbl, i: nat)
    requires Shaped(t) && 1 <= i < 17
    ensures FirstIdx(t, i + 1) == FirstIdx(t, i) + t.bits[i]
  {
  }

  lemma NoScanComps(f: Frame, s: Scanning)
    requires ScanningOk(f, s)
    ensures ScanCompBytes(f, s, s.comps[|s.comps|..]) == []
  {
  }

  lemma NextFrameComp(comps: seq<FrameComp>, i: nat)
    requires i < |comps| && CompsShaped(comps)
    ensures var c := comps[i];
            FrameCompBytes(comps[i..]) == [c.id % 256, c.h * 16 + c.v, c.quant] + FrameCompBytes(comps[i + 1..])
  {
    assert comps[i..][0] == comps[i] && comps[i..][1..] == comps[i + 1..];
  }

  lemma NextScanComp(f: Frame, s: Scanning, comps: seq<CompInfo>, i: nat)
    requires i < |comps|
    requires forall j :: 0 <= j < |comps| ==>
      comps[j].index < |f.comps| && comps[j].dcTbl < NUM_HUFF_TBLS && comps[j].acTbl < NUM_HUFF_TBLS
    ensures var c := UsedNumbers(f.progressive, s, comps[i]);
            ScanCompBytes(f, s, comps[i..]) == [f.comps[c.index].id % 256, c.dcTbl * 16 + c.acTbl] + ScanCompBytes(f, s, comps[i + 1..])
  {
    assert comps[i..][0] == comps[i] && comps[i..][1..] == comps[i + 1..];
  }

  class Writer {
    var out: seq<Byte>
    var lastRestartInterval: nat
    var quant: map<nat, Entry<QuantTbl>>
    var huff: map<TableId, Entry<HuffTbl>>

    ghost function Now(): Sender
      reads this
    {
      Sender(quant, huff, lastRestartInterval)
    }

    constructor (quantTables: map<nat, Entry<QuantTbl>>, huffTables: map<TableId, Entry<HuffTbl>>)
      ensures out == [] && Now() == Sender(quantTables, huffTables, 0)
    {
      out, lastRestartInterval, quant, huff := [], 0, quantTables, huffTables;
    }

    method EmitByte(val: nat)
      modifies `out
      ensures out == old(out) + [val % 256]
    {
      out := out + [val % 256];
    }

    method EmitMarker(mark: Byte)
      modifies `out
      ensures out == old(out) + [0xFF, mark]
    {
      EmitByte(0xFF);
      EmitByte(mark);
    }

    method Emit2Bytes(value: nat)
      modifies `out
      ensures out == old(out) + Two(value)
    {
      EmitByte(value / 256 % 256);
      EmitByte(value % 256);
    }

    /** The entries of a quantization table. */
    method EmitQuant(q: QuantTbl, wide: bool)
      modifies `out
      ensures out == old(out) + QuantBytes(q, wide)
    {
      assert q[0..] == q;
      for i := 0 to |q|
        invariant out + QuantBytes(q[i..], wide) == old(out) + QuantBytes(q, wide)
      {
        NextQuant(q, wide, i);
        if wide {
          EmitByte(q[i] / 256);
        }
        EmitByte(q[i] % 256);
      }
    }

    /** emit_dqt: returns the precision, 1 for 16 bits. */
    method EmitDqt(index: nat) returns (r: Result<nat, WriteError>)
      requires SenderOk(Now()) && index < NUM_QUANT_TBLS
      modifies `out, `quant
      ensures r.Ok? <==> index in old(quant)
      ensures r.Err? ==> r.error == NoQuantTable
      ensures r.Ok? ==> r.value == (if Wide(old(quant)[index].tbl) then 1 else 0) &&
                        Now() == SendQuant(old(Now()), index).0 && out == old(out) + SendQuant(old(Now()), index).1
      ensures r.Ok? && old(quant)[index].sent ==> out == old(out)
      ensures r.Ok? && !old(quant)[index].sent ==>
        out == old(out) + DqtBytes(index, old(quant)[index].tbl)
    {
      hide QuantBytes, Wide, Two;
      if index !in quant {
        return Err(NoQuantTable);
      }
      var prec := Precision(quant[index].tbl);
      if !quant[index].sent {
        EmitMarker(DQT);
        Emit2Bytes(if prec != 0 then 64 * 2 + 1 + 2 else 64 + 1 + 2);
        EmitByte(index + prec * 16);
        EmitQuant(quant[index].tbl, prec != 0);
        quant := quant[index := quant[index].(sent := true)];
      }
      return Ok(prec);
    }

    /** The parameters of a DHT marker. */
    method EmitHuff(id: TableId, t: HuffTbl)
      requires IdOk(id) && CountsFit(t)
      modifies `out
      ensures out == old(out) + Two(NumSymbols(t) + 2 + 1 + 16) + [IdByte(id)] + CountBytes(t) + t.huffval[..NumSymbols(t)]
    {
      hide FirstIdx, Two, CountBytes;
      var length: nat := 0;
      FirstSymbol(t);
      for i := 1 to 17
        invariant length == FirstIdx(t, i) && out == old(out)
      {
        NextSymbol(t, i);
        length := length + t.bits[i];
      }
      Emit2Bytes(length + 2 + 1 + 16);
      EmitByte(IdByte(id));
      EmitCounts(t);
      ghost var before := out;
      for i := 0 to length
        invariant out == before + t.huffval[..i]
      {
        EmitByte(t.huffval[i]);
      }
    }

    method EmitCounts(t: HuffTbl)
      requires CountsFit(t)
      modifies `out
      ensures out == old(out) + CountBytes(t)
    {
      for i := 1 to 17
        invariant out == old(out) + CountBytes(t)[..i - 1]
      {
        EmitByte(t.bits[i]);
      }
    }

    /** emit_dht */
    method EmitDht(id: TableId) returns (r: Option<WriteError>)
      requires SenderOk(Now()) && IdOk(id)
      modifies `out, `huff
      ensures r.None? <==> id in old(huff)
      ensures r.Some? ==> r.value == NoHuffTable
      ensures r.None? ==> Now() == SendHuff(old(Now()), id).0 && out == old(out) + SendHuff(old(Now()), id).1
      ensures r.None? && old(huff)[id].sent ==> out == old(out)
      ensures r.None? && !old(huff)[id].sent ==>
        out == old(out) + DhtBytes(id, old(huff)[id].tbl)
    {
      hide NumSymbols, CountBytes, Two;
      if id !in huff {
        return Some(NoHuffTable);
      }
      if !huff[id].sent {
        EmitMarker(DHT);
        EmitHuff(id, huff[id].tbl);
        huff := huff[id := huff[id].(sent := true)];
      }
      return None;
    }

    method EmitDri(ri: nat)
      modifies `out
      ensures out == old(out) + DriBytes(ri)
    {
      EmitMarker(DRI);
      Emit2Bytes(4);
      Emit2Bytes(ri);
    }

    method EmitFrameComps(comps: seq<FrameComp>)
      requires CompsShaped(comps)
      modifies `out
      ensures out == old(out) + FrameCompBytes(comps)
    {
      assert comps[0..] == comps;
      for ci := 0 to |comps|
        invariant out + FrameCompBytes(comps[ci..]) == old(out) + FrameCompBytes(comps)
      {
        NextFrameComp(comps, ci);
        EmitByte(comps[ci].id);
        EmitByte(comps[ci].h * 16 + comps[ci].v);
        EmitByte(comps[ci].quant);
      }
    }

    /** emit_sof */
    method EmitSof(code: Byte, f: Frame) returns (r: Option<WriteError>)
      requires FrameShaped(f)
      modifies `out
      ensures r.None? <==> f.height <= 65535 && f.width <= 65535
      ensures r.Some? ==> r.value == ImageTooBig
      ensures r.None? ==> FrameOk(f) && out == old(out) + SofBytes(code, f)
    {
      hide FrameCompBytes, Two;
      EmitMarker(code);
      Emit2Bytes(3 * |f.comps| + 2 + 5 + 1);
      if f.height > 65535 || f.width > 65535 {
        return Some(ImageTooBig);
      }
      EmitByte(f.precision);
      Emit2Bytes(f.height);
      Emit2Bytes(f.width);
      EmitByte(|f.comps|);
      EmitFrameComps(f.comps);
      return None;
    }

    method EmitScanComps(f: Frame, s: Scanning)
      requires ScanningOk(f, s)
      modifies `out
      ensures out == old(out) + ScanCompBytes(f, s, s.comps)
    {
      hide ScanCompBytes;
      assert s.comps[0..] == s.comps;
      for i := 0 to |s.comps|
        invariant out + ScanCompBytes(f, s, s.comps[i..]) == old(out) + ScanCompBytes(f, s, s.comps)
      {
        NextScanComp(f, s, s.comps, i);
        EmitByte(f.comps[s.comps[i].index].id);
        var td, ta := s.comps[i].dcTbl, s.comps[i].acTbl;
        if f.progressive {
          if s.Ss == 0 {
            ta := 0;
            if s.Ah != 0 {
              td := 0;
            }
          } else {
            td := 0;
          }
        }
        EmitByte(td * 16 + ta);
      }
      NoScanComps(f, s);
    }

    /** emit_sos */
    method EmitSos(f: Frame, s: Scanning)
      requires ScanningOk(f, s)
      modifies `out
      ensures out == old(out) + SosBytes(f, s)
    {
      hide ScanCompBytes, Two;
      EmitMarker(SOS);
      Emit2Bytes(2 * |s.comps| + 2 + 1 + 3);
      EmitByte(|s.comps|);
      EmitScanComps(f, s);
      EmitByte(s.Ss);
      EmitByte(s.Se);
      EmitByte(s.Ah * 16 + s.Al);
    }

    /** The quantization tables of all components; returns how many are wide. */
    method EmitQuants(f: Frame) returns (r: Result<nat, WriteError>)
      requires SenderOk(Now()) && FrameShaped(f)
      modifies `out, `quant
      ensures r.Ok? <==> forall i :: 0 <= i < |f.comps| ==> f.comps[i].quant in old(quant)
      ensures r.Err? ==> r.error == NoQuantTable
      ensures r.Ok? ==> Now() == SendQuants(old(Now()), f.comps, |f.comps|).0
      ensures r.Ok? ==> out == old(out) + SendQuants(old(Now()), f.comps, |f.comps|).1
      ensures r.Ok? ==> (r.value == 0 <==> NoneWide(old(Now()), f.comps, |f.comps|))
    {
      hide SendQuant, SenderOk, Wide, SameTables;
      var prec := 0;
      ghost var w := Now();
      for ci := 0 to |f.comps|
        invariant forall i :: 0 <= i < ci ==> f.comps[i].quant in w.quant
        invariant SenderOk(Now()) && Now() == SendQuants(w, f.comps, ci).0 && out == old(out) + SendQuants(w, f.comps, ci).1
        invariant prec == 0 <==> NoneWide(w, f.comps, ci)
      {
        QuantNext(w, f.comps, ci);
        WideNext(w, f.comps, ci);
        hide NoneWide, SendQuants;
        var p := EmitDqt(f.comps[ci].quant);
        if p.Err? {
          return Err(NoQuantTable);
        }
        prec := prec + p.value;
      }
      return Ok(prec);
    }

    /** write_frame_header. The SOF code tells baseline, other sequential, and progressive
        files apart. */
    method WriteFrameHeader(f: Frame, tables: seq<CompInfo>) returns (r: Option<WriteError>, code: Byte)
      requires SenderOk(Now()) && FrameShaped(f) && |tables| == |f.comps|
      modifies `out, `quant
      ensures r.None? <==> (forall i :: 0 <= i < |f.comps| ==> f.comps[i].quant in old(quant)) && f.height <= 65535 && f.width <= 65535
      ensures r.None? ==> FrameReady(old(Now()), f)
      ensures r.None? ==> code == if f.progressive then SOF2 else if Baseline(old(Now()), f, tables) then SOF0 else SOF1
      ensures r.None? ==>
        Now() == FrameHeader(old(Now()), f, code).0 && out == old(out) + FrameHeader(old(Now()), f, code).1
      ensures r.None? ==>
        Now() == AfterQuants(old(Now()), QuantList(f.comps)) && out == old(out) + FrameHeaderBytes(old(Now()), f, code)
    {
      hide SofBytes, SendQuants, SenderOk, NoneWide, AfterQuants, FrameHeaderBytes;
      code := 0;
      var prec := EmitQuants(f);
      if prec.Err? {
        return Some(prec.error), code;
      }
      var isBaseline := !f.progressive && f.precision == 8;
      if isBaseline {
        for ci := 0 to |f.comps|
          invariant isBaseline <==> forall i :: 0 <= i < ci ==> tables[i].dcTbl <= 1 && tables[i].acTbl <= 1
        {
          if tables[ci].dcTbl > 1 || tables[ci].acTbl > 1 {
            isBaseline := false;
          }
        }
        if prec.value != 0 && isBaseline {
          isBaseline := false;
        }
      }
      code := if f.progressive then SOF2 else if isBaseline then SOF0 else SOF1;
      r := EmitSof(code, f);
      if r.None? {
        FrameHeaderIs(old(Now()), f, code);
      }
    }

    /** The k-th table of a list. */
    method EmitListed(id: TableId, ghost w: Sender, ghost ids: seq<TableId>, ghost k: nat, ghost before: seq<Byte>)
        returns (r: Option<WriteError>)
      requires SenderOk(w) && SenderOk(Now()) && k < |ids| && ids[k] == id && IdOk(id) && ListSent(w, ids, k, Now(), before, out)
      modifies `out, `huff
      ensures r.None? <==> id in w.huff
      ensures r.Some? ==> r.value == NoHuffTable
      ensures r.None? ==> SenderOk(Now()) && ListSent(w, ids, k + 1, Now(), before, out)
    {
      hide SendHuff, SenderOk;
      r := EmitDht(id);
    }

    /** The tables for one component of a scan. */
    method EmitCompTables(f: Frame, s: Scanning, i: nat, ghost w: Sender, ghost before: seq<Byte>) returns (r: Option<WriteError>)
      requires SenderOk(w) && SenderOk(Now()) && ScanningOk(f, s) && i < |s.comps|
      requires ListSent(w, TableList(f, s), |ScanTableList(f.progressive, s, i)|, Now(), before, out)
      modifies `out, `huff
      ensures r.None? <==> forall j :: 0 <= j < |TablesOf(f.progressive, s, s.comps[i])| ==> TablesOf(f.progressive, s, s.comps[i])[j] in w.huff
      ensures r.Some? ==> r.value == NoHuffTable
      ensures r.None? ==>
        SenderOk(Now()) && ListSent(w, TableList(f, s), |ScanTableList(f.progressive, s, i + 1)|, Now(), before, out)
    {
      hide SenderOk, ListSent, TableList, ScanTableList;
      ghost var ids, k := TableList(f, s), |ScanTableList(f.progressive, s, i)|;
      TableListNext(f, s, i);
      var c := s.comps[i];
      ghost var own := TablesOf(f.progressive, s, c);
      r := None;
      if f.progressive {
        if s.Ss == 0 {
          if s.Ah == 0 {
            assert own == [Dc(c.dcTbl)] && ids[k + 0] == own[0];
            r := EmitListed(Dc(c.dcTbl), w, ids, k, before);
          }
        } else {
          assert own == [Ac(c.acTbl)] && ids[k + 0] == own[0];
          r := EmitListed(Ac(c.acTbl), w, ids, k, before);
        }
      } else {
        assert own == [Dc(c.dcTbl), Ac(c.acTbl)] && ids[k + 0] == own[0] && ids[k + 1] == own[1];
        r := EmitListed(Dc(c.dcTbl), w, ids, k, before);
        if r.Some? {
          return;
        }
        r := EmitListed(Ac(c.acTbl), w, ids, k + 1, before);
      }
    }

    /** write_scan_header: tables that are new, the restart interval if it is new, and SOS. */
    method WriteScanHeader(f: Frame, s: Scanning, ri: nat) returns (r: Option<WriteError>)
      requires SenderOk(Now()) && ScanningOk(f, s)
      modifies this
      ensures r.None? <==> ScanReady(old(Now()), f, s)
      ensures r.Some? ==> r.value == NoHuffTable
      ensures r.None? ==>
        Now() == ScanHeader(old(Now()), f, s, ri).0 && out == old(out) + ScanHeader(old(Now()), f, s, ri).1
      ensures r.None? ==>
        Now() == AfterHuffs(old(Now()), TableList(f, s)).(ri := ri) && out == old(out) + ScanHeaderBytes(old(Now()), f, s, ri)
      ensures r.None? && ri == old(lastRestartInterval) && AllSent(old(Now()), TableList(f, s)) ==>
        out == old(out) + SosBytes(f, s)
    {
      hide SosBytes, DriBytes, SenderOk, ScanTableList, TablesOf, ListSent, TableList, SendHuffs, AllIn, AfterHuffs, ScanHeaderBytes;
      ghost var w, before := Now(), out;
      NoneListed(w, f, s, out);
      for i := 0 to |s.comps|
        invariant SenderOk(Now()) && lastRestartInterval == w.ri
        invariant ListSent(w, TableList(f, s), |ScanTableList(f.progressive, s, i)|, Now(), before, out)
      {
        r := EmitCompTables(f, s, i, w, before);
        if r.Some? {
          NotReady(w, f, s, i);
          return;
        }
      }
      AllListed(w, f, s, Now(), before, out);
      if ri != lastRestartInterval {
        EmitDri(ri);
        lastRestartInterval := ri;
      }
      EmitSos(f, s);
      ScanHeaderIs(w, f, s, ri);
      if ri == w.ri && AllSent(w, TableList(f, s)) {
        NothingNew(w, f, s, ri);
      }
      return None;
    }

    /** write_file_header, without the markers that may follow SOI. */
    method WriteSoi()
      modifies `out, `lastRestartInterval
      ensures out == old(out) + [0xFF, SOI] && lastRestartInterval == 0
    {
      EmitMarker(SOI);
      lastRestartInterval := 0;
    }

    /** write_marker_header, and write_marker_byte for every byte of the parameters. */
    method WriteExtra(m: Byte, data: seq<Byte>) returns (r: Option<WriteError>)
      modifies `out
      ensures r.None? <==> |data| <= 65533
      ensures r.Some? ==> r.value == BadMarkerLength && out == old(out)
      ensures r.None? ==> out == old(out) + [0xFF, m] + Two(|data| + 2) + data
    {
      hide Two;
      if |data| > 65533 {
        return Some(BadMarkerLength);
      }
      EmitMarker(m);
      Emit2Bytes(|data| + 2);
      ghost var before := out;
      for i := 0 to |data|
        invariant out == before + data[..i]
      {
        EmitByte(data[i]);
      }
      return None;
    }

    /** What the entropy encoder puts out goes to the same place. */
    method Append(bytes: seq<Byte>)
      modifies `out
      ensures out == old(out) + bytes
    {
      out := out + bytes;
    }

    /** jpeg_gen_optimal_table leaves its tables unsent. */
    method InstallTables(tables: map<TableId, HuffTbl>)
      modifies `huff
      ensures Now() == Install(old(Now()), tables)
    {
      huff := map id | id in huff.Keys + tables.Keys :: if id in tables then Entry(tables[id], false) else huff[id];
    }

    method WriteFileTrailer()
      modifies `out
      ensures out == old(out) + [0xFF, EOI]
    {
      EmitMarker(EOI);
    }
  }

  /** The first k tables of the list are there and have been sent. */
  ghost predicate ListSent(w: Sender, ids: seq<TableId>, k: nat, w1: Sender, before: seq<Byte>, out: seq<Byte>)
    requires SenderOk(w)
  {
    AllIn(w, ids, k) && w1 == SendHuffs(w, ids, k).0 && out == before + SendHuffs(w, ids, k).1
  }

  lemma NoneListed(w: Sender, f: Frame, s: Scanning, out: seq<Byte>)
    requires SenderOk(w)
    ensures ScanTableList(f.progressive, s, 0) == [] && ListSent(w, TableList(f, s), 0, w, out, out)
  {
    assert out + [] == out;
  }

  lemma AllListed(w: Sender, f: Frame, s: Scanning, w1: Sender, before: seq<Byte>, out: seq<Byte>)
    requires SenderOk(w) && ScanningOk(f, s)
    requires ListSent(w, TableList(f, s), |ScanTableList(f.progressive, s, |s.comps|)|, w1, before, out)
    ensures ScanReady(w, f, s)
    ensures w1 == SendHuffs(w, TableList(f, s), |TableList(f, s)|).0 && out == before + SendHuffs(w, TableList(f, s), |TableList(f, s)|).1
  {
  }

  lemma NotReady(w: Sender, f: Frame, s: Scanning, i: nat)
    requires i < |s.comps| && exists j :: 0 <= j < |TablesOf(f.progressive, s, s.comps[i])| && TablesOf(f.progressive, s, s.comps[i])[j] !in w.huff
    ensures !ScanReady(w, f, s)
  {
    TableListNext(f, s, i);
    var j :| 0 <= j < |TablesOf(f.progressive, s, s.comps[i])| && TablesOf(f.progressive, s, s.comps[i])[j] !in w.huff;
    assert TableList(f, s)[|ScanTableList(f.progressive, s, i)| + j] !in w.huff;
  }
}
