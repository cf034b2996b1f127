/** The progressive Huffman encoder (jcphuff.c): one object that is driven MCU by
    MCU, either to gather statistics or to write the scan. */
module ProgressiveEncoder {
  import opened Bits
  import opened Tokens
  import opened AcCoding
  import opened DcCoding
  import opened AcRuns
  import opened EobRuns
  import opened ScanCoding
  import opened SymbolOutput
  import First = AcFirstScan
  import Refine = AcRefineScan
  import Stream = ScanStream

  const MAX_CORR_BITS: nat := 1000

  /** The bit-counting loop: nbits++ while (v >>= 1). */
  method CountBits(v: nat) returns (nbits: nat)
    ensures nbits == BitLen(v)
  {
    nbits := 0;
    var temp := v;
    while temp > 0
      invariant nbits + BitLen(temp) == BitLen(v)
    {
      nbits := nbits + 1;
      temp := temp / 2;
    }
  }

  lemma {:induction false} CorrectionsOk(gather: bool, T: Tables, br: seq<bool>)
    ensures Acceptable(gather, T, CorrectionTokens(br))
    ensures forall i :: 0 <= i < |CorrectionTokens(br)| ==> CorrectionTokens(br)[i].Raw?
  {
    if br != [] {
      CorrectionsOk(gather, T, br[1..]);
    }
  }

  lemma {:induction false} CorrectionsSnoc(br: seq<bool>, b: bool)
    ensures CorrectionTokens(br + [b]) == CorrectionTokens(br) + [Raw(if b then 1 else 0, 1)]
  {
    if br == [] {
      assert br + [b] == [b];
    } else {
      assert (br + [b])[1..] == br[1..] + [b];
      CorrectionsSnoc(br[1..], b);
    }
  }

  lemma EobSize(n: nat)
    requires 0 < n <= MAX_EOBRUN
    ensures BitLen(n) == 1 + BitLen(n / 2) && BitLen(n / 2) <= 14
  {
    BitLenSplit(n);
  }

  /** The tables that start_pass sets up. */
  function ScanTables(s: Scan): set<TableId>
    requires ScanOk(s)
  {
    if s.Ss > 0 then {BandOf(s).id}
    else if s.Ah == 0 then set ci | 0 <= ci < |s.comps| :: Dc(s.comps[ci].dcTbl)
    else {}
  }

  lemma TableSetUp(s: Scan)
    requires ScanOk(s)
    ensures s.Ss > 0 ==> BandOf(s).id in ScanTables(s)
  {
  }

  /** All that encoding a block emits, after a pending run of n. */
  function StepTokens(id: TableId, n: nat, be: seq<bool>, code: BlockCode): seq<Token> {
    AddCode(id, AcState([], n, be), code).toks
  }

  /** The state after part of a block's tokens, em, has been emitted. */
  function Emitted(id: TableId, st: AcState, em: seq<Token>): AcState {
    if em == [] then st else AcState(st.toks + (FlushTokens(id, st.eobrun, st.be) + em), 0, [])
  }

  /** The state once the block's end-of-band has been counted, before a run is
      forced out. */
  function Counted(id: TableId, st: AcState, code: BlockCode): AcState {
    var st1 := Emitted(id, st, code.toks);
    if Trailing(code) then AcState(st1.toks, st1.eobrun + 1, st1.be + code.br) else st1
  }

  predicate Forced(st: AcState, code: BlockCode) {
    Trailing(code) && (st.eobrun == MAX_EOBRUN || |st.be| > CORR_BITS_LIMIT)
  }

  lemma AddCodeIs(id: TableId, st: AcState, code: BlockCode)
    requires st.eobrun == 0 ==> st.be == []
    ensures var st2 := Counted(id, st, code);
            AddCode(id, st, code) == if Forced(st2, code) then Flush(id, st2) else st2
  {
    hide EobTokens, CorrectionTokens;
    var f := Flush(id, st);
    SeqAssoc(st.toks, FlushTokens(id, st.eobrun, st.be), code.toks);
    assert st.toks + [] == st.toks;
  }

  lemma StepTokensAre(id: TableId, st: AcState, code: BlockCode)
    requires st.eobrun == 0 ==> st.be == []
    ensures var st2 := Counted(id, st, code);
            StepTokens(id, st.eobrun, st.be, code)
              == (if code.toks == [] then [] else FlushTokens(id, st.eobrun, st.be) + code.toks)
                 + (if Forced(st2, code) then FlushTokens(id, st2.eobrun, st2.be) else [])
  {
    hide EobTokens, CorrectionTokens, AddCode;
    var st0 := st.(toks := []);
    AddCodeIs(id, st0, code);
    var part := if code.toks == [] then [] else FlushTokens(id, st.eobrun, st.be) + code.toks;
    assert [] + part == part && part + [] == part;
  }

  /** Everything a block emits is accepted if and only if its parts are. */
  lemma PartsAccepted(gather: bool, T: Tables, id: TableId, st: AcState, code: BlockCode)
    requires st.eobrun == 0 ==> st.be == []
    ensures var st2 := Counted(id, st, code);
            Acceptable(gather, T, StepTokens(id, st.eobrun, st.be, code)) <==>
              (code.toks != [] ==> Acceptable(gather, T, FlushTokens(id, st.eobrun, st.be)) && Acceptable(gather, T, code.toks)) &&
              (Forced(st2, code) ==> Acceptable(gather, T, FlushTokens(id, st2.eobrun, st2.be)))
  {
    hide StepTokens, Acceptable, FlushTokens, Counted;
    StepTokensAre(id, st, code);
    var st2 := Counted(id, st, code);
    var none: seq<Token> := [];
    var fl := FlushTokens(id, st.eobrun, st.be);
    var part := if code.toks == [] then none else fl + code.toks;
    var forced := if Forced(st2, code) then FlushTokens(id, st2.eobrun, st2.be) else none;
    AcceptsConcat(gather, T, part, forced);
    AcceptsConcat(gather, T, fl, code.toks);
    NothingAccepted(gather, T);
  }

  lemma NothingAccepted(gather: bool, T: Tables)
    ensures Acceptable(gather, T, [])
  {
  }

  /** Emitting run after em brings the encoder from one partial state to the next. */
  lemma EmittedMore(id: TableId, st: AcState, em: seq<Token>, run: seq<Token>)
    requires run != [] && (st.eobrun == 0 ==> st.be == [])
    ensures var st1 := Flush(id, Emitted(id, st, em));
            Emitted(id, st, em + run) == st1.(toks := st1.toks + run) && st1.eobrun == 0 && st1.be == []
  {
    hide EobTokens, CorrectionTokens;
    var fl := FlushTokens(id, st.eobrun, st.be);
    assert st.toks + (fl + (em + run)) == st.toks + (fl + em) + run;
    assert fl + [] == fl && st.toks + [] == st.toks;
  }

  lemma {:induction false} ZrlsAccepted(gather: bool, T: Tables, id: TableId, n: nat)
    ensures Acceptable(gather, T, Zrls(id, n)) <==> (n == 0 || Acceptable(gather, T, [Sym(id, 0xF0)]))
  {
    if n > 0 {
      AcceptsConcat(gather, T, [Sym(id, 0xF0)], Zrls(id, n - 1));
      ZrlsAccepted(gather, T, id, n - 1);
    }
  }

  lemma {:induction false} ZrlsSnoc(id: TableId, n: nat)
    ensures Zrls(id, n) + [Sym(id, 0xF0)] == Zrls(id, n + 1)
  {
    if n == 0 {
      assert Zrls(id, 1) == [Sym(id, 0xF0)] + Zrls(id, 0);
    } else {
      ZrlsSnoc(id, n - 1);
      assert [Sym(id, 0xF0)] + Zrls(id, n - 1) + [Sym(id, 0xF0)] == [Sym(id, 0xF0)] + (Zrls(id, n - 1) + [Sym(id, 0xF0)]);
    }
  }

  class PhuffEncoder {
    const scan: Scan
    const ri: nat
    const sink: SymbolSink
    /** bit_buffer: correction bits not yet emitted. */
    const bitBuffer: array<bool>
    const lastDc: array<int>
    var eobrun: nat
    var be: nat
    var restartsToGo: nat
    var nextRestartNum: nat

    ghost function Repr(): set<object> {
      {this, sink, sink.writer, bitBuffer, lastDc}
    }

    ghost predicate Shape()
    {
      ScanOk(scan) && bitBuffer.Length == MAX_CORR_BITS && lastDc.Length == |scan.comps|
    }

    function Table(): TableId
      requires ScanOk(scan)
    {
      BandOf(scan).id
    }

    /** What holds at every step. */
    ghost predicate Ready()
      reads Repr()
    {
      Shape() && sink.Valid() && be <= MAX_CORR_BITS && eobrun <= MAX_EOBRUN && (be > 0 ==> eobrun > 0) &&
      (scan.Ah == 0 ==> be == 0) &&
      if scan.Ss > 0 then Table() in sink.ids else eobrun == 0
    }

    /** What holds between MCUs. */
    ghost predicate Valid()
      reads Repr()
    {
      Ready() && AcInv(AcPart()) && nextRestartNum < 8 && (sink.gather || nextRestartNum == |sink.done| % 8) &&
      sink.ids == ScanTables(scan) &&
      (scan.Ss > 0 ==> lastDc[..] == seq(|scan.comps|, _ => 0))
    }

    /** The correction bits that belong to the pending run. */
    ghost function Pending(): seq<bool>
      requires be <= bitBuffer.Length
      reads this, bitBuffer
    {
      bitBuffer[..be]
    }

    ghost function AcPart(): AcState
      requires be <= bitBuffer.Length
      reads this, bitBuffer, sink
    {
      AcState(sink.toks, eobrun, Pending())
    }

    /** start_pass_phuff */
    constructor (scan: Scan, ri: nat, gather: bool, tables: map<TableId, EncTable>, ghost T: Tables)
      requires ScanOk(scan) && DerivesAll(tables, T) && (gather || ScanTables(scan) <= tables.Keys)
      ensures this.scan == scan && this.ri == ri && sink.gather == gather && sink.T == T
      ensures Valid() && fresh(Repr()) && State() == Stream.StartEncoder(scan, ri)
    {
      hide SymbolSink.Valid, ScanTables, DerivesAll;
      this.scan, this.ri := scan, ri;
      sink := new SymbolSink(gather, tables, ScanTables(scan), T);
      bitBuffer := new bool[MAX_CORR_BITS](_ => false);
      lastDc := new int[|scan.comps|](_ => 0);
      eobrun, be, restartsToGo, nextRestartNum := 0, 0, ri, 0;
      new;
      TableSetUp(scan);
      assert lastDc[..] == seq(|scan.comps|, _ => 0);
      assert Pending() == [];
    }

    /** emit_buffered_bits: n correction bits from index start of the buffer. */
    method EmitBufferedBits(start: nat, n: nat)
      requires sink.Valid() && start + n <= bitBuffer.Length
      modifies sink`counts, sink`toks, sink.writer
      ensures sink.Valid() && sink.toks == old(sink.toks) + CorrectionTokens(bitBuffer[start..start + n])
    {
      hide SymbolSink.Valid, CorrectionTokens;
      CorrectionsOk(sink.gather, sink.T, bitBuffer[start..start + n]);
      if sink.gather {
        sink.SkipRaws(CorrectionTokens(bitBuffer[start..start + n]));
        return;
      }
      var i := 0;
      NoCorrections(bitBuffer[start..start]);
      assert sink.toks + [] == sink.toks;
      while i < n
        invariant i <= n && sink.Valid() && sink.toks == old(sink.toks) + CorrectionTokens(bitBuffer[start..start + i])
      {
        var b := bitBuffer[start + i];
        OneRaw(sink.gather, sink.T, if b then 1 else 0);
        var ok := sink.EmitRaw(if b then 1 else 0, 1);
        CorrectionsSnoc(bitBuffer[start..start + i], b);
        assert bitBuffer[start..start + (i + 1)] == bitBuffer[start..start + i] + [b];
        i := i + 1;
      }
    }

    /** The end-of-band symbol of emit_eobrun. */
    method EmitEobSymbol() returns (ok: bool)
      requires Ready() && eobrun > 0
      modifies sink`counts, sink`toks, sink.writer
      ensures ok == sink.Accepts(EobTokens(Table(), eobrun))
      ensures ok ==> sink.Valid() && sink.toks == old(sink.toks) + EobTokens(Table(), eobrun)
    {
      hide SymbolSink.Valid, BitLen, Acceptable;
      var nbits := CountBits(eobrun / 2);
      EobSize(eobrun);
      if nbits > 14 {
        assert false;
      }
      var symbol, extra := [Sym(Table(), nbits * 16)], [Raw(eobrun, nbits)];
      assert EobTokens(Table(), eobrun) == if nbits > 0 then symbol + extra else symbol;
      AcceptsConcat(sink.gather, sink.T, symbol, extra);
      assert sink.toks + (symbol + extra) == sink.toks + symbol + extra;
      ok := sink.EmitSymbol(Table(), nbits * 16);
      if ok && nbits > 0 {
        ok := sink.EmitRaw(eobrun, nbits);
      }
    }

    /** emit_eobrun */
    method EmitEobrun() returns (ok: bool)
      requires Ready()
      modifies this`eobrun, this`be, sink`counts, sink`toks, sink.writer
      ensures ok == sink.Accepts(FlushTokens(Table(), old(eobrun), old(Pending())))
      ensures ok ==> Ready() && AcPart() == Flush(Table(), old(AcPart())) && eobrun == 0 && be == 0
      ensures ok ==> sink.toks == old(sink.toks) + FlushTokens(Table(), old(eobrun), old(Pending()))
    {
      hide SymbolSink.Valid, EobTokens, CorrectionTokens;
      ok := true;
      if eobrun > 0 {
        AcceptsConcat(sink.gather, sink.T, EobTokens(Table(), eobrun), CorrectionTokens(Pending()));
        CorrectionsOk(sink.gather, sink.T, Pending());
        ok := EmitEobSymbol();
        if ok {
          eobrun := 0;
          assert bitBuffer[0..0 + be] == bitBuffer[..be];
          EmitBufferedBits(0, be);
          be := 0;
        }
      }
    }

    /** The loop that emits run-length-16 codes. */
    method EmitZrls(r0: nat) returns (r: nat, ok: bool)
      requires Ready() && scan.Ss > 0
      modifies sink`counts, sink`toks, sink.writer
      ensures ok == sink.Accepts(Zrls(Table(), r0 / 16))
      ensures ok ==> Ready() && r == r0 % 16 && sink.toks == old(sink.toks) + Zrls(Table(), r0 / 16)
    {
      hide SymbolSink.Valid, Acceptable;
      r, ok := r0, true;
      var id := Table();
      ghost var n: nat := 0;
      assert sink.toks == old(sink.toks) + Zrls(id, 0);
      ZrlsAccepted(sink.gather, sink.T, id, r0 / 16);
      while r > 15
        invariant Ready() && r0 == r + 16 * n && sink.toks == old(sink.toks) + Zrls(id, n)
        invariant n > 0 ==> sink.Accepts([Sym(id, 0xF0)])
      {
        ok := sink.EmitSymbol(id, 0xF0);
        if !ok {
          return;
        }
        ZrlsSnoc(id, n);
        r, n := r - 16, n + 1;
      }
      assert n == r0 / 16;
    }

    /** A nonzero coefficient x of magnitude a in a first scan, after r zeros. */
    method EmitCoef(x: int, a: nat, r0: nat) returns (ok: bool)
      requires Ready() && scan.Ss > 0 && a == Mag(x, scan.Al) > 0
      modifies this`eobrun, this`be, sink`counts, sink`toks, sink.writer
      ensures ok == (BitLen(a) <= 10 && sink.Accepts(FlushTokens(Table(), old(eobrun), old(Pending()))) &&
                     sink.Accepts(First.RunTokens(BandOf(scan), x, r0)))
      ensures ok ==> Ready() && eobrun == 0 && be == 0
      ensures ok ==> sink.toks == Flush(Table(), old(AcPart())).toks + First.RunTokens(BandOf(scan), x, r0)
    {
      hide SymbolSink.Valid, Acceptable, Flush, FlushTokens, BitLen, Mag;
      var p := BandOf(scan);
      ghost var zrls := Zrls(p.id, r0 / 16);
      ghost var sym, raw := [Sym(p.id, r0 % 16 * 16 + BitLen(a))], [Raw(ExtraBits(x, a), BitLen(a))];
      assert First.CoefTokens(p, x, r0 % 16) == sym + raw;
      AcceptsConcat(sink.gather, sink.T, zrls, sym + raw);
      AcceptsConcat(sink.gather, sink.T, sym, raw);
      ok := EmitEobrun();
      if !ok { return; }
      ghost var toks1 := sink.toks;
      var r: nat;
      r, ok := EmitZrls(r0);
      if !ok { return; }
      var nbits := CountBits(a);
      if nbits > 10 {
        ok := false;
        return;
      }
      ok := sink.EmitSymbol(p.id, r * 16 + nbits);
      if !ok { return; }
      ok := sink.EmitRaw(ExtraBits(x, a), nbits);
      assert toks1 + (zrls + (sym + raw)) == toks1 + zrls + sym + raw;
    }

    /** The end-of-band part of an AC scan: counts the block's end-of-band and its
        br correction bits, and forces the run out before a counter overflows. */
    method CountEob(ghost code: BlockCode, r: nat, br: nat, ghost st: AcState) returns (ok: bool)
      requires Ready() && scan.Ss > 0 && r == code.r && be + br <= MAX_CORR_BITS && br == |code.br|
      requires scan.Ah == 0 ==> br == 0
      requires bitBuffer[be..be + br] == code.br && AcInv(st)
      requires AcPart() == Emitted(Table(), st, code.toks)
      requires code.toks != [] ==> sink.Accepts(FlushTokens(Table(), st.eobrun, st.be)) && sink.Accepts(code.toks)
      modifies this`eobrun, this`be, sink`counts, sink`toks, sink.writer
      ensures ok == sink.Accepts(StepTokens(Table(), st.eobrun, st.be, code))
      ensures ok ==> Ready() && AcPart() == AddCode(Table(), st, code) && AcInv(AcPart())
    {
      hide SymbolSink.Valid, Acceptable, Flush, FlushTokens, AddCode, StepTokens;
      AddCodeIs(Table(), st, code);
      PartsAccepted(sink.gather, sink.T, Table(), st, code);
      ok := true;
      if r > 0 || br > 0 {
        assert bitBuffer[..be + br] == bitBuffer[..be] + bitBuffer[be..be + br];
        eobrun := eobrun + 1;
        be := be + br;
        assert AcPart() == Counted(Table(), st, code);
        if eobrun == 0x7FFF || be > MAX_CORR_BITS - 64 + 1 {
          ok := EmitEobrun();
        }
      }
    }

    /** The coefficients of encode_mcu_AC_first. */
    method EncodeAcFirst(c: Block) returns (ok: bool)
      requires Ready() && scan.Ss > 0 && scan.Ah == 0 && AcInv(AcPart())
      modifies this`eobrun, this`be, sink`counts, sink`toks, sink.writer
      ensures ok == (First.InRange(BandOf(scan), c) &&
                     sink.Accepts(StepTokens(Table(), old(eobrun), old(Pending()), AcCode(BandOf(scan), c))))
      ensures ok ==> Ready() && AcInv(AcPart()) && AcPart() == AcStep(BandOf(scan), old(AcPart()), c)
      ensures ok && AcCode(BandOf(scan), c).toks == [] && old(eobrun) < 32766 ==>
        sink.toks == old(sink.toks) && eobrun == old(eobrun) + 1
    {
      hide SymbolSink.Valid, Acceptable, Flush, FlushTokens, AddCode, StepTokens, FirstFrom, BitLen, Mag, Emitted, First.RunTokens;
      var p := BandOf(scan);
      ghost var st, code := AcPart(), AcCode(p, c);
      ghost var em: seq<Token> := [];
      PartsAccepted(sink.gather, sink.T, p.id, st, code);
      NothingAccepted(sink.gather, sink.T);
      EmittedNothing(p.id, st, em);
      PrependNothing(FirstFrom(p, c, p.Ss, 0));
      var k, r := p.Ss, 0;
      while k <= p.Se
        invariant p.Ss <= k <= p.Se + 1 && Ready() && AcPart() == Emitted(p.id, st, em)
        invariant FirstFrom(p, c, p.Ss, 0) == Prepend(em, FirstFrom(p, c, k, r))
        invariant forall i :: p.Ss <= i < k ==> BitLen(Mag(c[i], p.Al)) <= 10
        invariant sink.Accepts(em) && (em != [] ==> sink.Accepts(FlushTokens(p.id, st.eobrun, st.be)))
      {
        var a := Shr(Abs(c[k]), p.Al);
        MagIs(c[k], p.Al);
        FirstFromStep(p, c, k, r);
        if a == 0 {
          r := r + 1;
        } else {
          ghost var run, more := First.RunTokens(p, c[k], r), FirstFrom(p, c, k + 1, 0);
          PartSent(sink.gather, sink.T, p.id, st, code, em, run, more);
          ok := EmitCoef(c[k], a, r);
          if !ok {
            return;
          }
          em := em + run;
          r := 0;
        }
        k := k + 1;
      }
      FirstFromEnd(p, c, k, r);
      assert em + [] == em && bitBuffer[be..be + 0] == [];
      if code.toks == [] && st.eobrun < 32766 {
        First.TrailingZeros(p, c);
        JoinsRun(p, st, c);
      }
      ok := CountEob(code, r, 0, st);
    }

    /** The pre-pass of encode_mcu_AC_refine: point-transformed magnitudes, and the
        index of the last newly nonzero coefficient. */
    method PrePass(c: Block) returns (absvalues: array<nat>, eob: nat)
      requires Shape() && scan.Ss > 0
      ensures fresh(absvalues) && absvalues.Length == 64
      ensures forall i :: scan.Ss <= i <= scan.Se ==> absvalues[i] == Mag(c[i], scan.Al)
      ensures eob == LastNew(BandOf(scan), c, scan.Ss, 0)
    {
      hide Mag;
      absvalues := new nat[64](_ => 0);
      eob := 0;
      var k := scan.Ss;
      while k <= scan.Se
        invariant scan.Ss <= k <= scan.Se + 1
        invariant forall i :: scan.Ss <= i < k ==> absvalues[i] == Mag(c[i], scan.Al)
        invariant LastNew(BandOf(scan), c, k, eob) == LastNew(BandOf(scan), c, scan.Ss, 0)
      {
        MagIs(c[k], scan.Al);
        absvalues[k] := Shr(Abs(c[k]), scan.Al);
        if absvalues[k] == 1 {
          eob := k;
        }
        k := k + 1;
      }
    }

    /** ZRLs that cannot be folded into the end-of-band; the first one takes the br
        correction bits at start along. */
    method EmitRefineZrls(due: bool, r0: nat, start0: nat, br0: nat) returns (r: nat, start: nat, br: nat, ok: bool)
      requires Ready() && scan.Ss > 0 && start0 + br0 <= bitBuffer.Length && start0 == be
      modifies this`eobrun, this`be, sink`counts, sink`toks, sink.writer
      ensures ok == (due && r0 > 15 ==>
        sink.Accepts(FlushTokens(Table(), old(eobrun), old(Pending()))) &&
        sink.Accepts(ZrlTokens(Table(), r0, bitBuffer[start0..start0 + br0])))
      ensures ok ==> Ready() && start == be
      ensures ok && !(due && r0 > 15) ==> r == r0 && br == br0 && AcPart() == old(AcPart())
      ensures ok && due && r0 > 15 ==> eobrun == 0 && be == 0 && r == r0 % 16 && br == 0
      ensures ok && due && r0 > 15 ==>
        sink.toks == Flush(Table(), old(AcPart())).toks + ZrlTokens(Table(), r0, bitBuffer[start0..start0 + br0])
    {
      hide SymbolSink.Valid, Acceptable, Flush, FlushTokens, CorrectionTokens;
      var id := Table();
      r, start, br, ok := r0, start0, br0, true;
      ghost var bits, fl := bitBuffer[start0..start0 + br0], FlushTokens(id, eobrun, Pending());
      ghost var zrl: seq<Token>, sent: seq<Token> := [Sym(id, 0xF0)], [];
      CorrectionsOk(sink.gather, sink.T, bits);
      while r > 15 && due
        invariant Ready() && r % 16 == r0 % 16 && start == be && start + br <= bitBuffer.Length
        invariant r == r0 ==> br == br0 && AcPart() == old(AcPart())
        invariant r != r0 ==> due && r0 > 15 && eobrun == 0 && be == 0 && br == 0
        invariant r != r0 ==>
          sink.toks == Flush(id, old(AcPart())).toks + sent && sent + Zrls(id, r / 16) == ZrlTokens(id, r0, bits)
        invariant r != r0 ==> sink.Accepts(sent) && sink.Accepts(fl)
      {
        ghost var br1, toks0, first := bitBuffer[start..start + br], Flush(id, AcPart()).toks, r == r0;
        ghost var more := Zrls(id, r / 16 - 1);
        AcceptsConcat(sink.gather, sink.T, zrl, CorrectionTokens(br1));
        AcceptsConcat(sink.gather, sink.T, zrl + CorrectionTokens(br1), more);
        AcceptsConcat(sink.gather, sink.T, sent, zrl + CorrectionTokens(br1) + more);
        AcceptsConcat(sink.gather, sink.T, sent, zrl + CorrectionTokens(br1));
        NothingPending(id, AcPart());
        ZrlStep(id, r, br1, sent);
        ok := EmitEobrun();
        if !ok { return; }
        ok := sink.EmitSymbol(id, 0xF0);
        if !ok { return; }
        EmitBufferedBits(start, br);
        assert toks0 + zrl + CorrectionTokens(br1) == toks0 + (zrl + CorrectionTokens(br1));
        r, start, br := r - 16, 0, 0;
        SeqAssoc(Flush(id, old(AcPart())).toks, sent, zrl + CorrectionTokens(br1));
        sent := if first then zrl + CorrectionTokens(br1) else sent + (zrl + CorrectionTokens(br1));
      }
      assert sent + [] == sent;
    }

    /** A newly nonzero coefficient x after r zeros, with the br correction bits at
        start. */
    method EmitNew(x: int, r: nat, start: nat, br: nat) returns (ok: bool)
      requires Ready() && scan.Ss > 0 && r <= 15 && start + br <= bitBuffer.Length
      modifies this`eobrun, this`be, sink`counts, sink`toks, sink.writer
      ensures ok == (sink.Accepts(FlushTokens(Table(), old(eobrun), old(Pending()))) &&
        sink.Accepts(Refine.NewTokens(BandOf(scan), x, r, bitBuffer[start..start + br])))
      ensures ok ==> Ready() && eobrun == 0 && be == 0
      ensures ok ==> sink.toks == Flush(Table(), old(AcPart())).toks
                                  + Refine.NewTokens(BandOf(scan), x, r, bitBuffer[start..start + br])
    {
      hide SymbolSink.Valid, Acceptable, Flush, FlushTokens, CorrectionTokens;
      ghost var bits := bitBuffer[start..start + br];
      var sign := if x < 0 then 0 else 1;
      ghost var sym, raw := [Sym(Table(), r * 16 + 1)], [Raw(sign, 1)];
      assert Refine.NewTokens(BandOf(scan), x, r, bits) == sym + raw + CorrectionTokens(bits);
      CorrectionsOk(sink.gather, sink.T, bits);
      AcceptsConcat(sink.gather, sink.T, sym, raw);
      AcceptsConcat(sink.gather, sink.T, sym + raw, CorrectionTokens(bits));
      OneRaw(sink.gather, sink.T, sign);
      ok := EmitEobrun();
      if !ok { return; }
      ghost var toks1 := sink.toks;
      ok := sink.EmitSymbol(Table(), r * 16 + 1);
      if !ok { return; }
      ok := sink.EmitRaw(sign, 1);
      EmitBufferedBits(start, br);
      assert toks1 + (sym + raw + CorrectionTokens(bits)) == toks1 + sym + raw + CorrectionTokens(bits);
    }

    /** Before coefficient k of a refinement: em has been emitted for the block, r
        zeros and the br correction bits at start are pending. */
    ghost predicate Along(c: Block, k: nat, r: nat, start: nat, br: nat, eob: nat, st: AcState, em: seq<Token>)
      reads Repr()
    {
      Ready() && scan.Ss > 0 && scan.Ah != 0 && AcInv(st) &&
      scan.Ss <= k <= scan.Se + 1 && AcPart() == Emitted(Table(), st, em) &&
      start == be <= CORR_BITS_LIMIT && br <= k - scan.Ss && start + br <= bitBuffer.Length &&
      RefineFrom(BandOf(scan), c, scan.Ss, 0, [], eob)
        == Prepend(em, RefineFrom(BandOf(scan), c, k, r, bitBuffer[start..start + br], eob)) &&
      sink.Accepts(em) && (em != [] ==> sink.Accepts(FlushTokens(Table(), st.eobrun, st.be)))
    }

    /** A coefficient of magnitude temp > 0 in a refinement scan. */
    method RefineCoef(c: Block, k: nat, temp: nat, r0: nat, start0: nat, br0: nat, eob: nat, ghost st: AcState, ghost em0: seq<Token>)
        returns (r: nat, start: nat, br: nat, ok: bool, ghost em: seq<Token>)
      requires Along(c, k, r0, start0, br0, eob, st, em0) && k <= scan.Se
      requires temp == Mag(c[k], scan.Al) > 0 && eob == LastNew(BandOf(scan), c, scan.Ss, 0)
      modifies this`eobrun, this`be, bitBuffer, sink`counts, sink`toks, sink.writer
      ensures ok ==> Along(c, k + 1, r, start, br, eob, st, em)
      ensures !ok ==> !sink.Accepts(StepTokens(Table(), st.eobrun, st.be, AcCode(BandOf(scan), c)))
    {
      hide SymbolSink.Valid, Acceptable, Flush, FlushTokens, StepTokens, RefineFrom, Mag, Emitted, Refine.NewTokens, LastNew, ZrlTokens;
      hide Forced, Counted, Prepend, AfterZrls;
      var p := BandOf(scan);
      ghost var code, bits := AcCode(p, c), bitBuffer[start0..start0 + br0];
      PartsAccepted(sink.gather, sink.T, p.id, st, code);
      ghost var flush := k <= eob && r0 > 15;
      ghost var z: seq<Token> := if flush then ZrlTokens(p.id, r0, bits) else [];
      ghost var r1, br1 := if flush then r0 % 16 else r0, if flush then [] else bits;
      RefineNonzero(p, c, k, r0, bits, eob);
      PrependNothing(AfterZrls(p, c, k, r0, bits, eob));
      PartSent(sink.gather, sink.T, p.id, st, code, em0, z, AfterZrls(p, c, k, r1, br1, eob));
      r, start, br, ok := EmitRefineZrls(k <= eob, r0, start0, br0);
      if !ok {
        em := em0;
        return;
      }
      em := em0 + z;
      assert bitBuffer[start..start + br] == br1;
      r, start, br, ok, em := AfterRefineZrls(c, k, temp, r, start, br, eob, st, em);
    }

    /** The same once its ZRLs are out: a correction bit, or a newly nonzero coefficient. */
    method AfterRefineZrls(c: Block, k: nat, temp: nat, r0: nat, start0: nat, br0: nat, eob: nat, ghost st: AcState, ghost em0: seq<Token>)
        returns (r: nat, start: nat, br: nat, ok: bool, ghost em: seq<Token>)
      requires Ready() && scan.Ss > 0 && scan.Ah != 0 && AcInv(st) && scan.Ss <= k <= scan.Se
      requires AcPart() == Emitted(Table(), st, em0) && start0 == be <= CORR_BITS_LIMIT
      requires br0 <= k - scan.Ss && start0 + br0 <= bitBuffer.Length && (k <= eob ==> r0 <= 15)
      requires AcCode(BandOf(scan), c) == Prepend(em0, AfterZrls(BandOf(scan), c, k, r0, bitBuffer[start0..start0 + br0], eob))
      requires sink.Accepts(em0) && (em0 != [] ==> sink.Accepts(FlushTokens(Table(), st.eobrun, st.be)))
      requires temp == Mag(c[k], scan.Al) > 0 && eob == LastNew(BandOf(scan), c, scan.Ss, 0)
      modifies this`eobrun, this`be, bitBuffer, sink`counts, sink`toks, sink.writer
      ensures ok ==> Along(c, k + 1, r, start, br, eob, st, em)
      ensures !ok ==> !sink.Accepts(StepTokens(Table(), st.eobrun, st.be, AcCode(BandOf(scan), c)))
    {
      hide SymbolSink.Valid, Acceptable, Flush, FlushTokens, StepTokens, RefineFrom, Mag, Emitted, Refine.NewTokens, LastNew;
      hide Forced, Counted, Prepend;
      var p := BandOf(scan);
      ghost var code, bits := AcCode(p, c), bitBuffer[start0..start0 + br0];
      r, start, br, ok, em := r0, start0, br0, true, em0;
      if temp > 1 {
        bitBuffer[start + br] := temp % 2 == 1;
        br := br + 1;
        assert bitBuffer[start..start + br] == bits + [temp % 2 == 1];
      } else {
        NewIsCovered(p, c, k);
        ghost var new_ := Refine.NewTokens(p, c[k], r, bits);
        PartsAccepted(sink.gather, sink.T, p.id, st, code);
        PartSent(sink.gather, sink.T, p.id, st, code, em, new_, RefineFrom(p, c, k + 1, 0, [], eob));
        NewNotEmpty(p, c[k], r, bits);
        ok := EmitNew(c[k], r, start, br);
        if !ok {
          return;
        }
        em := em + new_;
        start, br, r := 0, 0, 0;
        assert bitBuffer[start..start + br] == [];
      }
    }

    /** The coefficients of encode_mcu_AC_refine. */
    method EncodeAcRefine(c: Block) returns (ok: bool)
      requires Ready() && scan.Ss > 0 && scan.Ah != 0 && AcInv(AcPart())
      modifies this`eobrun, this`be, bitBuffer, sink`counts, sink`toks, sink.writer
      ensures ok == sink.Accepts(StepTokens(Table(), old(eobrun), old(Pending()), AcCode(BandOf(scan), c)))
      ensures ok ==> Ready() && AcInv(AcPart()) && AcPart() == AcStep(BandOf(scan), old(AcPart()), c)
      ensures ok && AcCode(BandOf(scan), c).toks == [] && old(eobrun) < 32766 && old(be) + |AcCode(BandOf(scan), c).br| <= 937 ==>
        sink.toks == old(sink.toks) && eobrun == old(eobrun) + 1 && Pending() == old(Pending()) + AcCode(BandOf(scan), c).br
    {
      hide SymbolSink.Valid, Acceptable, Flush, FlushTokens, AddCode, StepTokens, RefineFrom, Mag, Emitted, LastNew;
      hide Forced, Counted, Prepend;
      var p := BandOf(scan);
      var absvalues, eob := PrePass(c);
      ghost var st, code := AcPart(), AcCode(p, c);
      ghost var em: seq<Token> := [];
      NothingAccepted(sink.gather, sink.T);
      EmittedNothing(p.id, st, em);
      PrependNothing(RefineFrom(p, c, p.Ss, 0, [], eob));
      var k, r, br, start := p.Ss, 0, 0, be;
      assert bitBuffer[start..start] == [];
      while k <= p.Se
        invariant p.Ss <= k <= p.Se + 1 && Along(c, k, r, start, br, eob, st, em)
        invariant forall i :: p.Ss <= i <= p.Se ==> absvalues[i] == Mag(c[i], p.Al)
      {
        var temp := absvalues[k];
        if temp == 0 {
          RefineZero(p, c, k, r, bitBuffer[start..start + br], eob);
          r := r + 1;
        } else {
          r, start, br, ok, em := RefineCoef(c, k, temp, r, start, br, eob, st, em);
          if !ok {
            return;
          }
        }
        k := k + 1;
      }
      RefineEnd(p, c, k, r, bitBuffer[start..start + br], eob);
      PrependEnd(em, r, bitBuffer[start..start + br]);
      if code.toks == [] && st.eobrun < 32766 && |st.be| + |code.br| <= 937 {
        JoinsRun(p, st, c);
      }
      ok := CountEob(code, r, br, st);
    }

    /** The blocks of encode_mcu_DC_first. */
    method EncodeDcFirst(mcu: Mcu) returns (ok: bool)
      requires Ready() && sink.ids == ScanTables(scan) && scan.Ss == 0 && scan.Ah == 0 && |mcu| == |scan.membership|
      modifies lastDc, sink`counts, sink`toks, sink.writer
      ensures ok == (DcInRange(scan, old(lastDc[..]), mcu, 0) && sink.Accepts(EncDcFirst(scan, old(lastDc[..]), mcu, 0).0))
      ensures ok ==> Ready() && lastDc[..] == EncDcFirst(scan, old(lastDc[..]), mcu, 0).1
      ensures ok ==> sink.toks == old(sink.toks) + EncDcFirst(scan, old(lastDc[..]), mcu, 0).0
    {
      hide SymbolSink.Valid, Acceptable, DiffTokens, EncDcFirst, DcInRange;
      ghost var em: seq<Token> := [];
      ghost var last0, toks0 := lastDc[..], sink.toks;
      NothingAccepted(sink.gather, sink.T);
      assert toks0 + em == toks0;
      DcStart(scan, last0, mcu, em);
      var blkn := 0;
      ok := true;
      while blkn < |mcu|
        invariant 0 <= blkn <= |mcu| && Ready() && sink.toks == toks0 + em && sink.Accepts(em)
        invariant DcAlong(scan, last0, mcu, blkn, em, lastDc[..])
      {
        var ci := scan.membership[blkn];
        var temp2 := Shr(mcu[blkn][0], scan.Al);
        var temp := temp2 - lastDc[ci];
        DcAlongNext(sink.gather, sink.T, scan, last0, mcu, blkn, em, lastDc[..]);
        lastDc[ci] := temp2;
        ok := EmitDiff(DcTable(scan, blkn), temp);
        if !ok {
          return;
        }
        SeqAssoc(toks0, em, DiffTokens(DcTable(scan, blkn), temp));
        em := em + DiffTokens(DcTable(scan, blkn), temp);
        blkn := blkn + 1;
      }
      DcAlongEnd(scan, last0, mcu, em, lastDc[..]);
    }

    /** A DC difference. */
    method EmitDiff(id: TableId, d: int) returns (ok: bool)
      requires sink.Valid() && id in sink.ids && id.Dc?
      modifies sink`counts, sink`toks, sink.writer
      ensures ok == (BitLen(Abs(d)) <= 11 && sink.Accepts(DiffTokens(id, d)))
      ensures ok ==> sink.Valid() && sink.toks == old(sink.toks) + DiffTokens(id, d)
    {
      hide SymbolSink.Valid, Acceptable, BitLen;
      var temp, temp2 := Abs(d), if d < 0 then d - 1 else d;
      var nbits := CountBits(temp);
      if nbits > 11 {
        ok := false;
        return;
      }
      ghost var sym, raw := [Sym(id, nbits)], [Raw(temp2, nbits)];
      assert DiffTokens(id, d) == if nbits > 0 then sym + raw else sym;
      AcceptsConcat(sink.gather, sink.T, sym, raw);
      ok := sink.EmitSymbol(id, nbits);
      if ok && nbits > 0 {
        ok := sink.EmitRaw(temp2, nbits);
        SeqAssoc(old(sink.toks), sym, raw);
      }
    }

    /** The blocks of encode_mcu_DC_refine: one bit each. */
    method EncodeDcRefine(mcu: Mcu)
      requires Ready() && |mcu| == |scan.membership|
      modifies sink`toks, sink.writer
      ensures Ready() && sink.toks == old(sink.toks) + EncDcRefine(scan, mcu, 0) && sink.Accepts(EncDcRefine(scan, mcu, 0))
    {
      hide SymbolSink.Valid, Acceptable, EncDcRefine;
      ghost var em: seq<Token> := [];
      ghost var toks0 := sink.toks;
      NothingAccepted(sink.gather, sink.T);
      assert toks0 + em == toks0;
      assert em + EncDcRefine(scan, mcu, 0) == EncDcRefine(scan, mcu, 0);
      var blkn := 0;
      while blkn < |mcu|
        invariant 0 <= blkn <= |mcu| && Ready() && sink.toks == toks0 + em && sink.Accepts(em)
        invariant EncDcRefine(scan, mcu, 0) == em + EncDcRefine(scan, mcu, blkn)
      {
        var temp := Shr(mcu[blkn][0], scan.Al);
        DcRefineStep(scan, mcu, blkn);
        OneRaw(sink.gather, sink.T, temp);
        AcceptsConcat(sink.gather, sink.T, em, [Raw(temp, 1)]);
        var ok := sink.EmitRaw(temp, 1);
        SeqAssoc(toks0, em, [Raw(temp, 1)]);
        SeqAssoc(em, [Raw(temp, 1)], EncDcRefine(scan, mcu, blkn + 1));
        em := em + [Raw(temp, 1)];
        blkn := blkn + 1;
      }
      DcRefineStep(scan, mcu, blkn);
      assert em + [] == em;
    }

    /** The encoder's state as the scan model sees it. */
    ghost function State(): Stream.Encoder
      requires be <= bitBuffer.Length
      reads this, bitBuffer, lastDc, sink
    {
      Stream.Encoder(sink.done, EncState(AcPart(), lastDc[..]), restartsToGo, nextRestartNum)
    }

    /** emit_restart */
    method EmitRestart() returns (ok: bool)
      requires Valid()
      modifies this`eobrun, this`be, lastDc, sink, sink.writer
      ensures ok == sink.Accepts(FlushTokens(Table(), old(eobrun), old(Pending())))
      ensures ok ==> Ready() && |sink.toks| == 0
      ensures ok ==> sink.done == Stream.EmitRestart(scan, old(State())).done
      ensures ok ==> EncState(AcPart(), lastDc[..]) == EncInit(scan)
    {
      hide SymbolSink.Valid, Acceptable, FlushTokens;
      ok := EmitEobrun();
      if !ok { return; }
      sink.CloseSegment(nextRestartNum);
      if scan.Ss == 0 {
        for ci := 0 to lastDc.Length
          modifies lastDc
          invariant forall i :: 0 <= i < ci ==> lastDc[i] == 0
        {
          lastDc[ci] := 0;
        }
        assert lastDc[..] == seq(|scan.comps|, _ => 0);
      } else {
        eobrun := 0;
        be := 0;
      }
    }

    /** encode_mcu, in any of its four variants. */
    method EncodeMcu(mcu: Mcu) returns (ok: bool)
      requires Valid() && |mcu| == |scan.membership|
      modifies this`eobrun, this`be, this`restartsToGo, this`nextRestartNum, bitBuffer, lastDc, sink, sink.writer
      ensures ok == (Stream.EncodeOk(scan, ri, old(State()), mcu) && sink.Accepts(McuTokens(scan, ri, old(State()), mcu)))
      ensures ok ==> Valid() && State() == Stream.EncodeMcu(scan, ri, old(State()), mcu)
    {
      hide SymbolSink.Valid, Acceptable, FlushTokens, Flush, AcCode, EncDcFirst, EncDcRefine, StepTokens, AcStep;
      var due := ri > 0 && restartsToGo == 0;
      ok := true;
      if due {
        MustFlush(sink.gather, sink.T, scan, ri, State(), mcu);
        ok := EmitRestart();
        if !ok { return; }
      }
      ok := EncodeBlocks(mcu);
      if ok && ri > 0 {
        if restartsToGo == 0 {
          restartsToGo := ri;
          nextRestartNum := (nextRestartNum + 1) % 8;
        }
        restartsToGo := restartsToGo - 1;
      }
    }

    /** The blocks of an MCU, in the mode of the scan. */
    method EncodeBlocks(mcu: Mcu) returns (ok: bool)
      requires Ready() && AcInv(AcPart()) && sink.ids == ScanTables(scan) && |mcu| == |scan.membership|
      requires scan.Ss > 0 ==> lastDc[..] == seq(|scan.comps|, _ => 0)
      modifies this`eobrun, this`be, bitBuffer, lastDc, sink`counts, sink`toks, sink.writer
      ensures ok == (McuInRange(scan, old(State()).seg, mcu) && sink.Accepts(BlockTokens(scan, old(State()).seg, mcu)))
      ensures ok ==> Ready() && AcInv(AcPart()) && State().seg == EncMcu(scan, old(State()).seg, mcu)
      ensures scan.Ss > 0 ==> lastDc[..] == old(lastDc[..])
    {
      hide SymbolSink.Valid, Acceptable, FlushTokens, Flush, AcCode, EncDcFirst, EncDcRefine, StepTokens, AddCode, First.InRange, DcInRange;
      BlockTokensAre(scan, State().seg, mcu);
      ok := true;
      if scan.Ss > 0 {
        if scan.Ah == 0 {
          ok := EncodeAcFirst(mcu[0]);
        } else {
          ok := EncodeAcRefine(mcu[0]);
        }
      } else if scan.Ah == 0 {
        ok := EncodeDcFirst(mcu);
      } else {
        EncodeDcRefine(mcu);
      }
    }

    /** The statistics of the pass. */
    ghost predicate Statistics(segs: seq<seq<Token>>)
      reads sink
    {
      CountsAre(sink.counts, segs) && sink.counts.Keys == sink.ids && SymbolsInAll(sink.ids, segs)
    }

    /** finish_pass_phuff, or finish_pass_gather_phuff up to the generation of tables. */
    method FinishPass() returns (ok: bool)
      requires Valid()
      modifies this`eobrun, this`be, sink`counts, sink`toks, sink.writer
      ensures ok == sink.Accepts(FlushTokens(Table(), old(eobrun), old(Pending())))
      ensures ok && sink.gather ==> Statistics(Stream.FinishedSegments(scan, old(State())))
      ensures ok && !sink.gather ==> Stream.CoversAll(sink.T, Stream.FinishedSegments(scan, old(State())))
      ensures ok && !sink.gather ==>
        sink.writer.out == Stream.Render(sink.T, Stream.FinishedSegments(scan, old(State())), 0, [])
    {
      hide SymbolSink.Valid, Acceptable, FlushTokens, Flush, CountsAre, SymbolsInAll, Stream.CoversAll, Stream.Render;
      ok := EmitEobrun();
      if !ok { return; }
      assert sink.done + [sink.toks] == Stream.FinishedSegments(scan, old(State()));
      if sink.gather {
        sink.Gathered();
      } else {
        sink.Finish();
      }
    }
  }

  /** Everything the blocks of an MCU emit. */
  function BlockTokens(s: Scan, seg: EncState, mcu: Mcu): seq<Token>
    requires ScanOk(s) && |seg.lastDc| == |s.comps| && |mcu| == |s.membership|
  {
    EncMcu(s, seg.(ac := seg.ac.(toks := [])), mcu).ac.toks
  }

  lemma BlockTokensAre(s: Scan, seg: EncState, mcu: Mcu)
    requires ScanOk(s) && |seg.lastDc| == |s.comps| && |mcu| == |s.membership|
    ensures BlockTokens(s, seg, mcu) ==
            if s.Ss > 0 then StepTokens(BandOf(s).id, seg.ac.eobrun, seg.ac.be, AcCode(BandOf(s), mcu[0]))
            else if s.Ah == 0 then EncDcFirst(s, seg.lastDc, mcu, 0).0
            else EncDcRefine(s, mcu, 0)
  {
    hide AddCode, AcCode, EncDcFirst, EncDcRefine;
    assert [] + EncDcRefine(s, mcu, 0) == EncDcRefine(s, mcu, 0);
    if s.Ss == 0 && s.Ah == 0 {
      assert [] + EncDcFirst(s, seg.lastDc, mcu, 0).0 == EncDcFirst(s, seg.lastDc, mcu, 0).0;
    }
  }

  /** Everything emitted while an MCU is encoded. */
  function McuTokens(s: Scan, ri: nat, e: Stream.Encoder, mcu: Mcu): seq<Token>
    requires ScanOk(s) && |e.seg.lastDc| == |s.comps| && |mcu| == |s.membership|
  {
    if ri > 0 && e.togo == 0 then
      FlushTokens(BandOf(s).id, e.seg.ac.eobrun, e.seg.ac.be) + BlockTokens(s, EncInit(s), mcu)
    else BlockTokens(s, e.seg, mcu)
  }

  lemma MustFlush(gather: bool, T: Tables, s: Scan, ri: nat, e: Stream.Encoder, mcu: Mcu)
    requires ScanOk(s) && |e.seg.lastDc| == |s.comps| && |mcu| == |s.membership| && ri > 0 && e.togo == 0
    ensures Acceptable(gather, T, McuTokens(s, ri, e, mcu)) <==>
            Acceptable(gather, T, FlushTokens(BandOf(s).id, e.seg.ac.eobrun, e.seg.ac.be)) &&
            Acceptable(gather, T, BlockTokens(s, EncInit(s), mcu))
  {
    hide FlushTokens, BlockTokens, Acceptable;
    AcceptsConcat(gather, T, FlushTokens(BandOf(s).id, e.seg.ac.eobrun, e.seg.ac.be), BlockTokens(s, EncInit(s), mcu));
  }

  lemma DcRefineStep(s: Scan, mcu: Mcu, b: nat)
    ensures EncDcRefine(s, mcu, b) ==
            if b >= |mcu| then [] else [Raw(Shr(mcu[b][0], s.Al), 1)] + EncDcRefine(s, mcu, b + 1)
  {
  }

  /** Before block b of a first DC scan: em has been emitted for the MCU. */
  ghost predicate DcAlong(s: Scan, last0: seq<int>, mcu: Mcu, b: nat, em: seq<Token>, last: seq<int>)
    requires ScanOk(s) && |last0| == |s.comps| == |last| && |mcu| == |s.membership|
  {
    EncDcFirst(s, last0, mcu, 0) == (em + EncDcFirst(s, last, mcu, b).0, EncDcFirst(s, last, mcu, b).1) &&
    (DcInRange(s, last0, mcu, 0) <==> DcInRange(s, last, mcu, b))
  }

  lemma DcStart(s: Scan, last0: seq<int>, mcu: Mcu, em: seq<Token>)
    requires ScanOk(s) && |last0| == |s.comps| && |mcu| == |s.membership| && |em| == 0
    ensures DcAlong(s, last0, mcu, 0, em, last0)
  {
    hide EncDcFirst, DcInRange;
    var all := EncDcFirst(s, last0, mcu, 0).0;
    assert em + all == all;
  }

  lemma DcAlongNext(gather: bool, T: Tables, s: Scan, last0: seq<int>, mcu: Mcu, b: nat, em: seq<Token>, last: seq<int>)
    requires ScanOk(s) && |last0| == |s.comps| == |last| && b < |mcu| == |s.membership|
    requires DcAlong(s, last0, mcu, b, em, last)
    ensures var ci := s.membership[b];
            var v := Shr(mcu[b][0], s.Al);
            var diff := DiffTokens(DcTable(s, b), v - last[ci]);
            (BitLen(Abs(v - last[ci])) <= 11 ==> DcAlong(s, last0, mcu, b + 1, em + diff, last[ci := v])) &&
            (BitLen(Abs(v - last[ci])) > 11 ==> !DcInRange(s, last0, mcu, 0)) &&
            (Acceptable(gather, T, EncDcFirst(s, last0, mcu, 0).0) ==> Acceptable(gather, T, diff)) &&
            (Acceptable(gather, T, em + diff) <==> Acceptable(gather, T, em) && Acceptable(gather, T, diff))
  {
    hide DiffTokens, Acceptable, BitLen;
    var ci := s.membership[b];
    var v := Shr(mcu[b][0], s.Al);
    var diff := DiffTokens(DcTable(s, b), v - last[ci]);
    var more := EncDcFirst(s, last[ci := v], mcu, b + 1).0;
    SeqAssoc(em, diff, more);
    AcceptsConcat(gather, T, em + diff, more);
    AcceptsConcat(gather, T, em, diff);
  }

  lemma DcAlongEnd(s: Scan, last0: seq<int>, mcu: Mcu, em: seq<Token>, last: seq<int>)
    requires ScanOk(s) && |last0| == |s.comps| == |last| && |mcu| == |s.membership|
    requires DcAlong(s, last0, mcu, |mcu|, em, last)
    ensures EncDcFirst(s, last0, mcu, 0) == (em, last) && DcInRange(s, last0, mcu, 0)
  {
    assert em + [] == em;
  }

  lemma PrependEnd(em: seq<Token>, r: nat, br: seq<bool>)
    ensures Prepend(em, BlockCode([], r, br)) == BlockCode(em, r, br)
  {
  }

  /** The next ZRL, and what is left after it. */
  lemma ZrlStep(id: TableId, r: nat, br: seq<bool>, sent: seq<Token>)
    requires r > 15
    ensures var zrl, more := [Sym(id, 0xF0)] + CorrectionTokens(br), Zrls(id, r / 16 - 1);
            ZrlTokens(id, r, br) == zrl + more && (r - 16) / 16 == r / 16 - 1 && (r - 16) % 16 == r % 16 &&
            sent + zrl + more == sent + (zrl + more) && (br == [] ==> Zrls(id, r / 16) == zrl + more)
  {
  }

  lemma NothingPending(id: TableId, st: AcState)
    ensures st.eobrun == 0 ==> FlushTokens(id, st.eobrun, st.be) == [] && Flush(id, st) == st
  {
  }

  /** Progress through the tokens of a block: em has been emitted, part is next. */
  lemma PartSent(gather: bool, T: Tables, id: TableId, st: AcState, code: BlockCode, em: seq<Token>, part: seq<Token>, more: BlockCode)
    requires code == Prepend(em, Prepend(part, more)) && (st.eobrun == 0 ==> st.be == [])
    ensures code == Prepend(em + part, more)
    ensures Acceptable(gather, T, em + part) <==> Acceptable(gather, T, em) && Acceptable(gather, T, part)
    ensures Acceptable(gather, T, code.toks) ==> Acceptable(gather, T, part)
    ensures part == [] ==> em + part == em
    ensures part != [] ==> code.toks != []
    ensures var st0 := Emitted(id, st, em);
            FlushTokens(id, st0.eobrun, st0.be) == (if em == [] then FlushTokens(id, st.eobrun, st.be) else [])
    ensures Acceptable(gather, T, [])
    ensures part != [] ==> var st1 := Flush(id, Emitted(id, st, em));
            Emitted(id, st, em + part) == st1.(toks := st1.toks + part) && st1.eobrun == 0 && st1.be == []
  {
    hide Acceptable, Flush, FlushTokens, Emitted;
    PrependTwice(em, part, more);
    AcceptsConcat(gather, T, em + part, more.toks);
    AcceptsConcat(gather, T, em, part);
    PendingAccepted(gather, T, id, st, em);
    if part != [] {
      EmittedMore(id, st, em, part);
    }
  }

  lemma NewNotEmpty(p: Band, x: int, r: nat, br: seq<bool>)
    ensures Refine.NewTokens(p, x, r, br) != []
  {
  }

  /** A newly nonzero coefficient does not come after the last one. */
  lemma NewIsCovered(p: Band, c: Block, k: nat)
    requires AcBand(p) && p.Ss <= k <= p.Se && Mag(c[k], p.Al) == 1
    ensures k <= LastNew(p, c, p.Ss, 0)
  {
    hide Mag, LastNew;
    Refine.LastNewIs(p, c, p.Ss, 0);
  }

  lemma RefineZero(p: Band, c: Block, k: nat, r: nat, br: seq<bool>, eob: nat)
    requires k <= p.Se <= 63 && Mag(c[k], p.Al) == 0
    ensures RefineFrom(p, c, k, r, br, eob) == RefineFrom(p, c, k + 1, r + 1, br, eob)
  {
  }

  lemma RefineEnd(p: Band, c: Block, k: nat, r: nat, br: seq<bool>, eob: nat)
    requires k == p.Se + 1 && p.Se <= 63
    ensures RefineFrom(p, c, k, r, br, eob) == BlockCode([], r, br)
  {
  }

  /** What a nonzero coefficient adds once its ZRLs z are out: r1 zeros and the
      correction bits br1 are then pending. */
  function AfterZrls(p: Band, c: Block, k: nat, r1: nat, br1: seq<bool>, eob: nat): BlockCode
    requires k <= p.Se <= 63
  {
    if Mag(c[k], p.Al) == 1 then
      Prepend(Refine.NewTokens(p, c[k], r1, br1), RefineFrom(p, c, k + 1, 0, [], eob))
    else RefineFrom(p, c, k + 1, r1, br1 + [Mag(c[k], p.Al) % 2 == 1], eob)
  }

  lemma RefineNonzero(p: Band, c: Block, k: nat, r: nat, br: seq<bool>, eob: nat)
    requires k <= p.Se <= 63 && Mag(c[k], p.Al) > 0
    ensures RefineFrom(p, c, k, r, br, eob) ==
            if k <= eob && r > 15 then Prepend(ZrlTokens(p.id, r, br), AfterZrls(p, c, k, r % 16, [], eob))
            else AfterZrls(p, c, k, r, br, eob)
    ensures r > 15 ==> ZrlTokens(p.id, r, br) != []
  {
    hide Mag;
  }

  lemma MagIs(x: int, al: nat)
    ensures Mag(x, al) == Shr(Abs(x), al)
    ensures Mag(x, al) == 0 ==> BitLen(Mag(x, al)) == 0
  {
  }

  lemma EmittedNothing(id: TableId, st: AcState, em: seq<Token>)
    requires |em| == 0
    ensures Emitted(id, st, em) == st
  {
  }

  lemma PrependNothing(code: BlockCode)
    ensures Prepend([], code) == code
  {
    assert [] + code.toks == code.toks;
  }

  lemma PrependTwice(a: seq<Token>, b: seq<Token>, code: BlockCode)
    ensures Prepend(a, Prepend(b, code)) == Prepend(a + b, code)
    ensures Prepend(a + b, code).toks == a + b + code.toks
  {
    SeqAssoc(a, b, code.toks);
  }

  lemma FirstFromStep(p: Band, c: Block, k: nat, r: nat)
    requires k <= p.Se <= 63
    ensures Mag(c[k], p.Al) == 0 ==> FirstFrom(p, c, k, r) == FirstFrom(p, c, k + 1, r + 1)
    ensures Mag(c[k], p.Al) > 0 ==>
      FirstFrom(p, c, k, r) == Prepend(First.RunTokens(p, c[k], r), FirstFrom(p, c, k + 1, 0)) &&
      First.RunTokens(p, c[k], r) != []
  {
    if Mag(c[k], p.Al) > 0 {
      First.FirstFromCoef(p, c, k, r);
    }
  }

  lemma FirstFromEnd(p: Band, c: Block, k: nat, r: nat)
    requires k == p.Se + 1 && p.Se <= 63
    ensures FirstFrom(p, c, k, r) == BlockCode([], r, [])
  {
  }

  /** Flushing what is still pending emits nothing new once something was emitted. */
  lemma PendingAccepted(gather: bool, T: Tables, id: TableId, st: AcState, em: seq<Token>)
    ensures var st1 := Emitted(id, st, em);
            FlushTokens(id, st1.eobrun, st1.be) == if em == [] then FlushTokens(id, st.eobrun, st.be) else []
    ensures Acceptable(gather, T, [])
  {
  }

  lemma NoCorrections(none: seq<bool>)
    requires |none| == 0
    ensures CorrectionTokens(none) == []
  {
  }

  lemma OneRaw(gather: bool, T: Tables, v: int)
    ensures Acceptable(gather, T, [Raw(v, 1)])
  {
  }
}
